/** The order of the repository list after loading: stars descending, then
    last update descending, as the comparator handed to `Array.prototype.sort`
    defines it. The sort itself is the engine's stable sort. */
module Ordering {
  import opened Types
  import opened Sorting

  /** `a` may precede `b`: the comparator does not return a positive value. */
  predicate InOrder(a: Repo, b: Repo)
  {
    a.stars > b.stars || (a.stars == b.stars && a.updatedAt >= b.updatedAt)
  }

  lemma InOrderPreorder()
    ensures TotalPreorder(InOrder)
  {
  }

  predicate SortedByStars(s: seq<Repo>)
  {
    SortedBy(InOrder, s)
  }

  /** The loaded list sorted by the comparator: a permutation of its input in
      which every element may precede every later one. */
  function SortRepos(s: seq<Repo>): (r: seq<Repo>)
    ensures |r| == |s|
    ensures SortedByStars(r)
    ensures multiset(r) == multiset(s)
  {
    InOrderPreorder();
    SortBy(InOrder, s)
  }

  /** The comparator ties two repositories exactly when they have the same
      stars and the same update time. */
  lemma TiedIsSameKeys(a: Repo, b: Repo)
    ensures Tied(InOrder, a, b) <==> a.stars == b.stars && a.updatedAt == b.updatedAt
  {
  }

  /** The sort is stable: repositories with the same stars and update time
      as `a` come out in the order they arrived in. */
  lemma SortReposStable(s: seq<Repo>, a: Repo)
    ensures TiedWith(InOrder, SortRepos(s), a) == TiedWith(InOrder, s, a)
  {
    InOrderPreorder();
    SortStable(InOrder, s, a);
  }

  /** In the sorted list the repository with more stars comes first, and of
      two with equal stars the more recently updated one comes first. */
  lemma SortOrder(s: seq<Repo>)
    ensures var r := SortRepos(s);
      && |r| == |s|
      && (forall i, j :: 0 <= i < |r| && 0 <= j < |r| && r[i].stars > r[j].stars ==> i < j)
      && (forall i, j ::
            0 <= i < |r| && 0 <= j < |r| && r[i].stars == r[j].stars && r[i].updatedAt > r[j].updatedAt ==> i < j)
  {
    var r := SortRepos(s);
    forall i, j | 0 <= j <= i < |r|
      ensures r[j].stars >= r[i].stars
      ensures r[j].stars == r[i].stars ==> r[j].updatedAt >= r[i].updatedAt
    {
      if j < i {
        assert InOrder(r[j], r[i]);
      }
    }
  }

  /** Two repositories with five stars each: the one updated later is listed
      first, from either arrival order. */
  lemma SortScenario(a: Repo, b: Repo)
    requires a.stars == 5 && b.stars == 5 && a.updatedAt < b.updatedAt
    ensures SortRepos([a, b]) == [b, a]
    ensures SortRepos([b, a]) == [b, a]
  {
    InOrderPreorder();
    assert [a, b][1..] == [b];
    assert [b, a][1..] == [a];
    assert SortBy(InOrder, [b]) == [b];
    assert SortBy(InOrder, [a]) == [a];
    assert InsertBy(InOrder, a, [b])[1..] == InsertBy(InOrder, a, [b][1..]);
  }

  /** Two repositories with the same stars and the same update time keep
      the order they arrived in. */
  lemma TieScenario(a: Repo, b: Repo)
    requires a.stars == b.stars && a.updatedAt == b.updatedAt
    ensures SortRepos([a, b]) == [a, b]
  {
    InOrderPreorder();
    assert [a, b][1..] == [b];
    assert SortBy(InOrder, [b]) == [b];
  }
}
