/** The page's single mutable `state` record, the render steps that read it
    and the event handlers and loader that write it. Markup is reduced to
    what it shows: the chip bar, the card grid and the two state flags. */
module Viewer {
  import opened Types
  import opened Filtering
  import opened Languages
  import opened Chips
  import opened Cards
  import opened Ordering
  import opened Pagination

  class Session {
    var repos: seq<Repo>
    var langs: seq<LangCount>
    var langFilter: Option<string>
    var includeForks: bool
    var search: string

    /** What is on screen. */
    var chips: seq<Chip>
    var grid: seq<Card>
    var emptyShown: bool
    var errorShown: bool

    /** The index always describes the whole (sorted) list, and a language
        filter, when set, is never the empty label. */
    ghost predicate Valid()
      reads this`repos, this`langs, this`langFilter
    {
      && langs == LanguageIndex(repos)
      && SortedByStars(repos)
      && (langFilter.Some? ==> langFilter.value != "")
    }

    function Filters(): FilterState
      reads this`langFilter, this`includeForks, this`search
    {
      FilterState(langFilter, includeForks, search)
    }

    /** The repositories the current filters let through, in list order. */
    function Visible(): seq<Repo>
      reads this`repos, this`langFilter, this`includeForks, this`search
    {
      Filter(repos, Filters())
    }

    ghost predicate GridRendered()
      reads this`grid, this`emptyShown, this`repos, this`langFilter, this`includeForks, this`search
    {
      grid == CardGrid(Visible()) && emptyShown == (|Visible()| == 0)
    }

    ghost predicate ChipsRendered()
      reads this`chips, this`langs, this`langFilter, this`repos
    {
      chips == ChipBar(langs, langFilter, |repos|)
    }

    /** The state record as the script initialises it, before anything is
        loaded or rendered. */
    constructor ()
      ensures Valid()
      ensures repos == [] && langs == [] && langFilter == None && !includeForks && search == ""
      ensures chips == [] && grid == [] && !emptyShown && !errorShown
    {
      repos, langs, langFilter, includeForks, search := [], [], None, false, "";
      chips, grid, emptyShown, errorShown := [], [], false, false;
    }

    /** `applyFilters`: redraws the grid from the filtered view and shows the
        empty state exactly when nothing passes. */
    method ApplyFilters()
      modifies this`grid, this`emptyShown
      ensures GridRendered()
    {
      var visible := Filter(repos, Filters());
      grid := CardGrid(visible);
      emptyShown := |visible| == 0;
    }

    /** `renderChips`: redraws the chip bar from the index. When the index
        describes the list and the filter is unset or an indexed language,
        exactly one chip is active. */
    method RenderChips()
      modifies this`chips
      ensures ChipsRendered()
      ensures langs == LanguageIndex(repos) && (!Truthy(langFilter) || langFilter.value in Keys(langs)) ==>
                ActiveCount(chips) == 1
    {
      var bar := ChipBar(langs, langFilter, |repos|);
      if langs == LanguageIndex(repos) && (!Truthy(langFilter) || langFilter.value in Keys(langs)) {
        IndexOneActive(repos, langFilter, |repos|);
      }
      chips := bar;
    }

    /** A click on a chip: the "All" chip carries the empty label, which
        clears the filter. When the label is empty or an indexed language,
        exactly one chip ends up active. */
    method SelectLanguage(lang: string)
      requires Valid()
      modifies this`langFilter, this`chips, this`grid, this`emptyShown
      ensures Valid() && ChipsRendered() && GridRendered()
      ensures langFilter == if lang == "" then None else Some(lang)
      ensures lang == "" || lang in Keys(langs) ==> ActiveCount(chips) == 1
    {
      langFilter := if lang == "" then None else Some(lang);
      assert Valid();
      RenderChips();
      ApplyFilters();
    }

    /** Typing in the search box. The chip bar and the index stay as they are. */
    method SetSearch(value: string)
      modifies this`search, this`grid, this`emptyShown
      ensures search == value && GridRendered()
      ensures old(Valid()) ==> Valid()
      ensures old(ChipsRendered()) ==> ChipsRendered()
    {
      search := value;
      ApplyFilters();
    }

    /** Flipping the fork toggle. Turning it on keeps every repository that
        was visible, in the same order. */
    method SetIncludeForks(checked: bool)
      modifies this`includeForks, this`grid, this`emptyShown
      ensures includeForks == checked && GridRendered()
      ensures old(Valid()) ==> Valid()
      ensures old(ChipsRendered()) ==> ChipsRendered()
      ensures !old(includeForks) && checked ==> IsSubsequence(old(Visible()), Visible())
    {
      IncludeForksMonotone(repos, Filters());
      includeForks := checked;
      ApplyFilters();
    }

    /** The success path of `loadRepos`: the fetched records, sorted by stars
        and update time, replace the list; the index is rebuilt from them and
        both the chip bar and the grid are redrawn. */
    method Commit(fetched: seq<Repo>)
      modifies this`repos, this`langs, this`chips, this`grid, this`emptyShown
      ensures repos == SortRepos(fetched) && langs == LanguageIndex(repos)
      ensures old(Valid()) ==> Valid()
      ensures ChipsRendered() && GridRendered()
    {
      var all := SortRepos(fetched);
      var index := IndexLanguages(all);
      repos, langs := all, index;
      RenderChips();
      ApplyFilters();
    }

    /** `loadRepos`: on success the list is replaced as `Commit` says; on
        failure the error state is shown and nothing else changes. The error
        state is never cleared. */
    method LoadRepos(fetch: nat -> PageResult)
      requires Valid()
      modifies this`repos, this`langs, this`chips, this`grid, this`emptyShown, this`errorShown
      ensures Valid()
      ensures CollectAll(fetch).Ok? ==>
                && repos == SortRepos(CollectAll(fetch).value)
                && ChipsRendered() && GridRendered()
                && errorShown == old(errorShown)
      ensures CollectAll(fetch).Err? ==>
                && repos == old(repos) && langs == old(langs)
                && chips == old(chips) && grid == old(grid) && emptyShown == old(emptyShown)
                && errorShown
    {
      var res, _ := FetchAll(fetch);
      if res.Err? {
        errorShown := true;
      } else {
        Commit(res.value);
      }
    }
  }
}
