/** The pure formatting helpers: description truncation and the profile's
    location label. */
module Format {
  import opened Types
  import opened Text

  /** Character budget of a card's description. */
  const DescBudget := 180
  /** Characters kept in front of the ellipsis when a description is cut. */
  const DescKeep := 177
  const Ellipsis: char := '\U{2026}'

  /** `trimDesc`: absent or empty descriptions render as the empty string,
      descriptions within the budget pass through, longer ones are cut to
      their first 177 characters followed by one ellipsis. */
  function TrimDesc(d: Option<string>): (r: string)
    ensures |r| <= DescBudget
    ensures !Truthy(d) ==> r == ""
    ensures Truthy(d) && |d.value| <= DescBudget ==> r == d.value
    ensures Truthy(d) && |d.value| > DescBudget ==>
              |r| == DescKeep + 1 && r[..DescKeep] == d.value[..DescKeep] && r[DescKeep] == Ellipsis
  {
    if !Truthy(d) then ""
    else if |d.value| <= DescBudget then d.value
    else d.value[..DescKeep] + [Ellipsis]
  }

  /** Truncating an already truncated description changes nothing. */
  lemma TrimDescIdempotent(d: Option<string>)
    ensures TrimDesc(Some(TrimDesc(d))) == TrimDesc(d)
  {
  }

  /** The location line of the profile header: the account's own location
      when it has one, then the fixed label, joined by a bullet. */
  function LocationLabel(location: Option<string>): (r: string)
    ensures Truthy(location) ==> r == location.value + " \U{2022} Philippines"
    ensures !Truthy(location) ==> r == "Philippines"
  {
    var locations := (if Truthy(location) then [location.value] else []) + ["Philippines"];
    var r := Join(locations, " \U{2022} ");
    if Truthy(location) then
      assert locations == [location.value, "Philippines"] && locations[1..] == ["Philippines"];
      assert Join(["Philippines"], " \U{2022} ") == "Philippines";
      assert r == location.value + " \U{2022} " + Join(["Philippines"], " \U{2022} ");
      assert r == location.value + (" \U{2022} " + "Philippines");
      r
    else r
  }
}
