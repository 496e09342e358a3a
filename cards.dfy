/** The display projection of one repository (`repoCard`), without markup:
    which values a card shows and where its link points. */
module Cards {
  import opened Types
  import opened Text
  import opened Format

  /** Topics shown on a card at most. */
  const MaxTopics := 3

  /** What a card shows. A badge is `None` when it is not rendered; a present
      star or fork badge carries the count it displays. */
  datatype Card = Card(
    title: string,
    body: string,
    lang: Option<string>,
    starBadge: Option<int>,
    forkBadge: Option<int>,
    topics: seq<string>,
    href: string)

  /** The link target: the homepage when it is set and starts with "http",
      otherwise the repository's own page. */
  predicate LinksHomepage(r: Repo)
  {
    Truthy(r.homepage) && StartsWith(r.homepage.value, "http")
  }

  function RepoCard(r: Repo): (c: Card)
    ensures c.title == r.name
    ensures c.body == TrimDesc(r.description) && |c.body| <= DescBudget
    ensures LinksHomepage(r) ==> c.href == r.homepage.value
    ensures !LinksHomepage(r) ==> c.href == r.htmlUrl
    ensures c.lang.Some? <==> Truthy(r.language)
    ensures c.lang.Some? ==> c.lang == r.language
    ensures c.starBadge.Some? <==> r.stars > 0
    ensures c.starBadge.Some? ==> c.starBadge.value == r.stars
    ensures c.forkBadge.Some? <==> r.forks > 0
    ensures c.forkBadge.Some? ==> c.forkBadge.value == r.forks
    ensures |c.topics| == if |r.topics| <= MaxTopics then |r.topics| else MaxTopics
    ensures c.topics == r.topics[..|c.topics|]
  {
    Card(
      r.name,
      TrimDesc(r.description),
      if Truthy(r.language) then r.language else None,
      if r.stars > 0 then Some(r.stars) else None,
      if r.forks > 0 then Some(r.forks) else None,
      if |r.topics| <= MaxTopics then r.topics else r.topics[..MaxTopics],
      if LinksHomepage(r) then r.homepage.value else r.htmlUrl)
  }

  /** The card grid for a list of repositories, in list order. */
  function CardGrid(rs: seq<Repo>): (cs: seq<Card>)
    ensures |cs| == |rs|
    ensures forall i :: 0 <= i < |rs| ==> cs[i] == RepoCard(rs[i])
  {
    seq(|rs|, i requires 0 <= i < |rs| => RepoCard(rs[i]))
  }
}
