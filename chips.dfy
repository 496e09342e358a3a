/** The language chip bar (`renderChips`), without markup: an "All" chip
    followed by one chip per indexed language, most frequent first, with the
    chip of the active language filter marked. */
module Chips {
  import opened Types
  import opened Languages
  import opened Sorting

  datatype Chip =
    | AllChip(total: nat, active: bool)
    | LangChip(lang: string, count: nat, active: bool)

  /** The chip comparator `(a, b) => b[1] - a[1]` lets `a` stay in front of
      `b` when `a` is at least as frequent. */
  predicate ByCount(a: LangCount, b: LangCount)
  {
    a.count >= b.count
  }

  lemma ByCountPreorder()
    ensures TotalPreorder(ByCount)
  {
  }

  predicate ByCountDesc(s: seq<LangCount>)
  {
    SortedBy(ByCount, s)
  }

  /** The entries sorted by `(a, b) => b[1] - a[1]` with a stable sort. */
  function SortByCount(s: seq<LangCount>): (r: seq<LangCount>)
    ensures |r| == |s|
    ensures ByCountDesc(r)
    ensures multiset(r) == multiset(s)
  {
    ByCountPreorder();
    SortBy(ByCount, s)
  }

  /** The sort is stable: entries as frequent as `e` keep their index order,
      which is the order in which their languages were first met. */
  lemma SortByCountStable(s: seq<LangCount>, e: LangCount)
    ensures TiedWith(ByCount, SortByCount(s), e) == TiedWith(ByCount, s, e)
  {
    ByCountPreorder();
    SortStable(ByCount, s, e);
  }

  function LangChips(es: seq<LangCount>, langFilter: Option<string>): (cs: seq<Chip>)
  {
    if es == [] then []
    else [LangChip(es[0].lang, es[0].count, langFilter == Some(es[0].lang))] + LangChips(es[1..], langFilter)
  }

  /** The chip bar for an index, the active filter and the total number of
      repositories (forks and repositories without a language included). */
  function ChipBar(langs: seq<LangCount>, langFilter: Option<string>, total: nat): seq<Chip>
  {
    [AllChip(total, !Truthy(langFilter))] + LangChips(SortByCount(langs), langFilter)
  }

  /** The index entry a language chip displays. */
  function EntriesOf(cs: seq<Chip>): seq<LangCount>
  {
    if cs == [] then []
    else (if cs[0].LangChip? then [LangCount(cs[0].lang, cs[0].count)] else []) + EntriesOf(cs[1..])
  }

  function ActiveCount(cs: seq<Chip>): nat
  {
    if cs == [] then 0 else (if cs[0].active then 1 else 0) + ActiveCount(cs[1..])
  }

  /** Number of entries of `s` with key `l`. */
  function KeyCount(s: seq<LangCount>, l: string): nat
  {
    if s == [] then 0 else (if s[0].lang == l then 1 else 0) + KeyCount(s[1..], l)
  }

  lemma {:induction false} LangChipsShape(es: seq<LangCount>, lf: Option<string>)
    ensures |LangChips(es, lf)| == |es|
    ensures forall i :: 0 <= i < |es| ==> LangChips(es, lf)[i] == LangChip(es[i].lang, es[i].count, lf == Some(es[i].lang))
    ensures EntriesOf(LangChips(es, lf)) == es
    ensures ActiveCount(LangChips(es, lf)) == if lf.Some? then KeyCount(es, lf.value) else 0
  {
    if es != [] {
      LangChipsShape(es[1..], lf);
      var cs := LangChips(es, lf);
      assert cs[1..] == LangChips(es[1..], lf);
      assert es == [es[0]] + es[1..];
    }
  }

  lemma {:induction false} InsertKeepsCounts(e: LangCount, s: seq<LangCount>, l: string)
    requires TotalPreorder(ByCount) && ByCountDesc(s)
    ensures KeyCount(InsertBy(ByCount, e, s), l) == KeyCount(s, l) + (if e.lang == l then 1 else 0)
    ensures Sum(InsertBy(ByCount, e, s)) == Sum(s) + e.count
  {
    var r := InsertBy(ByCount, e, s);
    if s == [] || ByCount(e, s[0]) {
      assert r[1..] == s;
    } else {
      InsertKeepsCounts(e, s[1..], l);
      assert r[1..] == InsertBy(ByCount, e, s[1..]);
    }
  }

  lemma {:induction false} SortKeepsCounts(s: seq<LangCount>, l: string)
    requires TotalPreorder(ByCount)
    ensures KeyCount(SortBy(ByCount, s), l) == KeyCount(s, l)
    ensures Sum(SortBy(ByCount, s)) == Sum(s)
  {
    if s != [] {
      SortKeepsCounts(s[1..], l);
      InsertKeepsCounts(s[0], SortBy(ByCount, s[1..]), l);
    }
  }

  lemma {:induction false} DistinctKeyCount(s: seq<LangCount>, l: string)
    requires DistinctKeys(s)
    ensures KeyCount(s, l) == if l in Keys(s) then 1 else 0
  {
    if s != [] {
      DistinctKeyCount(s[1..], l);
      assert Keys(s) == [s[0].lang] + Keys(s[1..]);
      if s[0].lang == l {
        assert l !in Keys(s[1..]);
      }
    }
  }

  /** The chip bar starts with the "All" chip labelled with the total, then
      holds every index entry exactly once in non-increasing count order, and
      a language chip is active exactly when its language is the filter. */
  lemma ChipBarShape(langs: seq<LangCount>, lf: Option<string>, total: nat)
    ensures var cs := ChipBar(langs, lf, total);
      && |cs| == |langs| + 1
      && cs[0] == AllChip(total, !Truthy(lf))
      && (forall i :: 1 <= i < |cs| ==> cs[i].LangChip? && (cs[i].active <==> lf == Some(cs[i].lang)))
      && (forall i, j :: 1 <= i < j < |cs| ==> cs[i].count >= cs[j].count)
      && multiset(EntriesOf(cs[1..])) == multiset(langs)
      && Sum(EntriesOf(cs[1..])) == Sum(langs)
  {
    var sorted := SortByCount(langs);
    var tail := LangChips(sorted, lf);
    LangChipsShape(sorted, lf);
    ByCountPreorder();
    SortKeepsCounts(langs, "");
    var cs := ChipBar(langs, lf, total);
    assert cs[1..] == tail;
    forall i | 1 <= i < |cs|
      ensures cs[i] == LangChip(sorted[i - 1].lang, sorted[i - 1].count, lf == Some(sorted[i - 1].lang))
    {
      assert cs[i] == tail[i - 1];
    }
    forall i, j | 1 <= i < j < |cs| ensures cs[i].count >= cs[j].count {
      assert sorted[i - 1].count >= sorted[j - 1].count;
    }
  }

  /** Exactly one chip is active when the filter is unset or names an
      indexed language ("All" in the first case, that language's chip in the
      second); none is when the filter names a language the index lacks. */
  lemma ExactlyOneActive(langs: seq<LangCount>, lf: Option<string>, total: nat)
    requires DistinctKeys(langs) && WellFormed(langs)
    ensures ActiveCount(ChipBar(langs, lf, total)) == if !Truthy(lf) || lf.value in Keys(langs) then 1 else 0
  {
    var sorted := SortByCount(langs);
    var cs := ChipBar(langs, lf, total);
    LangChipsShape(sorted, lf);
    assert cs[1..] == LangChips(sorted, lf);
    if lf.Some? {
      ByCountPreorder();
      SortKeepsCounts(langs, lf.value);
      DistinctKeyCount(langs, lf.value);
      if lf.value == "" {
        assert lf.value !in Keys(langs);
      }
    }
  }

  /** Exactly one chip of the bar over a list's index is active when the
      filter is unset or names a language of the list. */
  lemma IndexOneActive(rs: seq<Repo>, lf: Option<string>, total: nat)
    requires !Truthy(lf) || lf.value in Keys(LanguageIndex(rs))
    ensures ActiveCount(ChipBar(LanguageIndex(rs), lf, total)) == 1
  {
    IndexWellFormed(rs);
    ExactlyOneActive(LanguageIndex(rs), lf, total);
  }
}
