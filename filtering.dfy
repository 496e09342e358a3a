/** The filter engine: the predicate inside `applyFilters` and the ordered
    view it selects from the session's repository list. */
module Filtering {
  import opened Types
  import opened Text

  /** The three user-controlled filter fields of the session state. */
  datatype FilterState = FilterState(langFilter: Option<string>, includeForks: bool, search: string)

  /** The filter state the page starts with. */
  const Default := FilterState(None, false, "")

  /** The text searched: "name description topics", lower-cased, with an
      absent description read as the empty string. */
  function Haystack(r: Repo): string
  {
    var desc := if r.description.Some? then r.description.value else "";
    Lower(r.name + " " + desc + " " + Join(r.topics, " "))
  }

  /** The effective query: the search text lower-cased and trimmed. */
  function Query(search: string): string
  {
    Trim(Lower(search))
  }

  predicate ForkOk(r: Repo, f: FilterState)
  {
    f.includeForks || !r.fork
  }

  predicate LangOk(r: Repo, f: FilterState)
  {
    !Truthy(f.langFilter) || r.language == f.langFilter
  }

  predicate TextOk(r: Repo, q: string)
  {
    q == "" || Contains(Haystack(r), q)
  }

  /** The predicate `applyFilters` hands to `Array.prototype.filter`. */
  predicate Passes(r: Repo, f: FilterState)
  {
    ForkOk(r, f) && LangOk(r, f) && TextOk(r, Query(f.search))
  }

  /** `b` keeps all elements of `a`, in the same order, with others in between. */
  predicate IsSubsequence<T(==)>(a: seq<T>, b: seq<T>)
    decreases |b|
  {
    a == [] || (b != [] && ((a[0] == b[0] && IsSubsequence(a[1..], b[1..])) || IsSubsequence(a, b[1..])))
  }

  /** The filtered view: an order-preserving selection of `rs` holding
      exactly the records that pass, each as often as it occurs in `rs`. */
  function Filter(rs: seq<Repo>, f: FilterState): (r: seq<Repo>)
    ensures IsSubsequence(r, rs)
  {
    if rs == [] then []
    else
      var rest := Filter(rs[1..], f);
      if Passes(rs[0], f) then
        assert ([rs[0]] + rest)[1..] == rest;
        [rs[0]] + rest
      else rest
  }

  /** The view holds exactly the records that pass, each as often as it
      occurs in the list. */
  lemma {:induction false} FilterSelects(rs: seq<Repo>, f: FilterState)
    ensures forall x :: multiset(Filter(rs, f))[x] == if Passes(x, f) then multiset(rs)[x] else 0
    ensures forall x :: x in Filter(rs, f) <==> x in rs && Passes(x, f)
  {
    if rs != [] {
      FilterSelects(rs[1..], f);
      assert rs == [rs[0]] + rs[1..];
    }
  }

  /** With forks excluded, no fork is ever shown. */
  lemma NoForkUnlessIncluded(rs: seq<Repo>, f: FilterState)
    requires !f.includeForks
    ensures forall x :: x in Filter(rs, f) ==> !x.fork
  {
    FilterSelects(rs, f);
  }

  lemma {:induction false} SubsequenceCons<T>(x: T, a: seq<T>, b: seq<T>)
    requires IsSubsequence(a, b)
    ensures IsSubsequence(a, [x] + b) && IsSubsequence([x] + a, [x] + b)
  {
    assert ([x] + b)[1..] == b;
    assert ([x] + a)[1..] == a;
  }

  /** Turning the fork toggle on never removes a repository from the view:
      the view without forks is a subsequence of the view with them. */
  lemma {:induction false} IncludeForksMonotone(rs: seq<Repo>, f: FilterState)
    ensures IsSubsequence(Filter(rs, f.(includeForks := false)), Filter(rs, f.(includeForks := true)))
  {
    var off, on := f.(includeForks := false), f.(includeForks := true);
    if rs != [] {
      IncludeForksMonotone(rs[1..], f);
      var a, b := Filter(rs[1..], off), Filter(rs[1..], on);
      SubsequenceCons(rs[0], a, b);
      if Passes(rs[0], off) {
        assert Filter(rs, off) == [rs[0]] + a;
        assert Filter(rs, on) == [rs[0]] + b;
      } else if Passes(rs[0], on) {
        assert Filter(rs, off) == a;
        assert Filter(rs, on) == [rs[0]] + b;
      } else {
        assert Filter(rs, off) == a;
        assert Filter(rs, on) == b;
      }
    }
  }

  /** The non-fork records of a list, in order: the reference for the
      default view. */
  function NonForks(rs: seq<Repo>): seq<Repo>
  {
    if rs == [] then [] else (if rs[0].fork then [] else [rs[0]]) + NonForks(rs[1..])
  }

  /** The page's initial filter state shows exactly the non-fork records,
      in their original order. */
  lemma {:induction false} DefaultShowsNonForks(rs: seq<Repo>)
    ensures Filter(rs, Default) == NonForks(rs)
  {
    assert Query(Default.search) == "";
    if rs != [] {
      DefaultShowsNonForks(rs[1..]);
    }
  }

  /** An empty or white-space-only search imposes no text restriction. */
  lemma BlankSearchNoRestriction(r: Repo, f: FilterState)
    requires AllSpace(f.search)
    ensures Passes(r, f) <==> ForkOk(r, f) && LangOk(r, f)
  {
    LowerKeepsSpace(f.search);
    TrimEmptyIffAllSpace(Lower(f.search));
  }

  /** A search text with something other than white space in it does
      restrict: only records whose haystack contains the query pass. */
  lemma NonBlankSearchRestricts(r: Repo, f: FilterState)
    requires !AllSpace(f.search)
    ensures Passes(r, f) <==> ForkOk(r, f) && LangOk(r, f) && Contains(Haystack(r), Query(f.search))
  {
    LowerKeepsSpace(f.search);
    TrimEmptyIffAllSpace(Lower(f.search));
  }

  /** Filtering a filtered view again changes nothing. */
  lemma {:induction false} FilterIdempotent(rs: seq<Repo>, f: FilterState)
    ensures Filter(Filter(rs, f), f) == Filter(rs, f)
  {
    if rs != [] {
      FilterIdempotent(rs[1..], f);
      if Passes(rs[0], f) {
        var r := Filter(rs, f);
        assert r == [rs[0]] + Filter(rs[1..], f);
        assert r[1..] == Filter(rs[1..], f);
      }
    }
  }

  lemma QueryPro(q: string)
    requires q == "pro"
    ensures Query(q) == "pro"
  {
    var l := Lower(q);
    assert l[0] == 'p' && l[1] == 'r' && l[2] == 'o';
    assert l == "pro";
    assert !IsSpace(l[0]) && !IsSpace(l[2]);
    assert TrimStart(l) == l;
    assert TrimEnd(l) == l;
  }

  lemma HaystackProxyTool(a: Repo)
    requires a.name == "proxy-tool" && a.description == None && a.topics == []
    ensures Contains(Haystack(a), "pro")
  {
    var ha := Haystack(a);
    assert a.name + " " + "" + " " + Join(a.topics, " ") == "proxy-tool  ";
    assert ha[0] == 'p' && ha[1] == 'r' && ha[2] == 'o';
    assert StartsWith(ha[0..], "pro");
  }

  lemma HaystackGateway(b: Repo)
    requires b.name == "gateway" && b.description == Some("reverse proxy") && b.topics == []
    ensures Contains(Haystack(b), "pro")
  {
    var hb := Haystack(b);
    var sb := "gateway reverse proxy ";
    assert b.name + " " + "reverse proxy" + " " + Join(b.topics, " ") == sb;
    assert hb[16] == LowerChar(sb[16]) == 'p';
    assert hb[17] == LowerChar(sb[17]) == 'r';
    assert hb[18] == LowerChar(sb[18]) == 'o';
    assert StartsWith(hb[16..], "pro");
  }

  /** The query "pro" matches a repository named "proxy-tool" that has no
      description, and one named "gateway" whose description is "reverse proxy". */
  lemma SearchScenario(a: Repo, b: Repo, f: FilterState)
    requires a.name == "proxy-tool" && a.description == None && a.topics == [] && !a.fork
    requires b.name == "gateway" && b.description == Some("reverse proxy") && b.topics == [] && !b.fork
    requires f == FilterState(None, false, "pro")
    ensures Passes(a, f) && Passes(b, f)
  {
    QueryPro(f.search);
    HaystackProxyTool(a);
    HaystackGateway(b);
  }
}
