/** The paginated fetch of `loadRepos`: pages of 100 records are requested
    from page 1 on, the loop stops after the first page that is not full or
    after page 3, and any failed request aborts the whole load. The network
    is an oracle from page number to the page's outcome. */
module Pagination {
  import opened Types

  const PerPage := 100
  const MaxPages := 3

  /** A non-success response: its status code and reason text. */
  datatype FetchError = FetchError(status: int, reason: string)

  /** What requesting one page yields. */
  datatype PageResult = Batch(items: seq<Repo>) | Failed(err: FetchError)

  /** Whether the loop goes on after requesting `page`. */
  predicate Continues(fetch: nat -> PageResult, page: nat)
  {
    fetch(page).Batch? && |fetch(page).items| == PerPage
  }

  /** Prefixes the records of a successful remainder. */
  function Prepend(xs: seq<Repo>, rest: Result<seq<Repo>, FetchError>): Result<seq<Repo>, FetchError>
  {
    match rest
    case Ok(ys) => Ok(xs + ys)
    case Err(e) => Err(e)
  }

  /** The outcome of the load from `page` on, the records of the earlier
      pages being `acc`. */
  function CollectFrom(fetch: nat -> PageResult, page: nat, acc: seq<Repo>): Result<seq<Repo>, FetchError>
    requires page >= 1
    decreases MaxPages + 1 - page
  {
    if page > MaxPages then Ok(acc)
    else match fetch(page)
      case Failed(e) => Err(e)
      case Batch(b) => if |b| == PerPage then CollectFrom(fetch, page + 1, acc + b) else Ok(acc + b)
  }

  /** The pages requested up to the end of the load, `done` having been
      requested before `page`. */
  function Requested(fetch: nat -> PageResult, page: nat, done: seq<nat>): seq<nat>
    requires page >= 1
    decreases MaxPages + 1 - page
  {
    if page > MaxPages then done
    else if Continues(fetch, page) then Requested(fetch, page + 1, done + [page])
    else done + [page]
  }

  function CollectAll(fetch: nat -> PageResult): Result<seq<Repo>, FetchError>
  {
    CollectFrom(fetch, 1, [])
  }

  function RequestedAll(fetch: nat -> PageResult): seq<nat>
  {
    Requested(fetch, 1, [])
  }

  /** The records of the given pages, concatenated in order. */
  function Concat(fetch: nat -> PageResult, pages: seq<nat>): seq<Repo>
  {
    if pages == [] then []
    else (if fetch(pages[0]).Batch? then fetch(pages[0]).items else []) + Concat(fetch, pages[1..])
  }

  /** The `while (more && page <= 3)` loop: requests pages in order, appends
      each batch, and stops after a batch that is not full; a failed request
      ends the load with its error. Also reports the pages it requested. */
  method FetchAll(fetch: nat -> PageResult) returns (r: Result<seq<Repo>, FetchError>, requested: seq<nat>)
    ensures r == CollectAll(fetch)
    ensures requested == RequestedAll(fetch)
  {
    var page := 1;
    var all: seq<Repo> := [];
    var more := true;
    requested := [];
    while more && page <= MaxPages
      invariant 1 <= page <= MaxPages + 1
      invariant more ==> CollectAll(fetch) == CollectFrom(fetch, page, all)
      invariant more ==> RequestedAll(fetch) == Requested(fetch, page, requested)
      invariant !more ==> CollectAll(fetch) == Ok(all) && RequestedAll(fetch) == requested
      decreases MaxPages + 1 - page
    {
      requested := requested + [page];
      var res := fetch(page);
      if res.Failed? {
        r := Err(res.err);
        return;
      }
      var batch := res.items;
      all := all + batch;
      more := |batch| == PerPage;
      page := page + 1;
    }
    r := Ok(all);
  }

  /** Earlier records only prefix the outcome. */
  lemma {:induction false} CollectShift(fetch: nat -> PageResult, page: nat, acc: seq<Repo>)
    requires page >= 1
    ensures CollectFrom(fetch, page, acc) == Prepend(acc, CollectFrom(fetch, page, []))
    decreases MaxPages + 1 - page
  {
    if page <= MaxPages && Continues(fetch, page) {
      var b := fetch(page).items;
      CollectShift(fetch, page + 1, acc + b);
      CollectShift(fetch, page + 1, [] + b);
      assert [] + b == b;
      match CollectFrom(fetch, page + 1, [])
      case Ok(ys) => assert acc + b + ys == acc + (b + ys);
      case Err(_) =>
    } else if page <= MaxPages && fetch(page).Batch? {
      assert [] + fetch(page).items == fetch(page).items;
    } else if page > MaxPages {
      assert acc + [] == acc;
    }
  }

  /** Earlier requests only prefix the pages requested. */
  lemma {:induction false} RequestedShift(fetch: nat -> PageResult, page: nat, done: seq<nat>)
    requires page >= 1
    ensures Requested(fetch, page, done) == done + Requested(fetch, page, [])
    decreases MaxPages + 1 - page
  {
    if page <= MaxPages && Continues(fetch, page) {
      RequestedShift(fetch, page + 1, done + [page]);
      RequestedShift(fetch, page + 1, [] + [page]);
      assert done + [page] + Requested(fetch, page + 1, []) == done + ([page] + Requested(fetch, page + 1, []));
    } else if page > MaxPages {
      assert done + [] == done;
    }
  }

  /** The recursive reading of the two specifications: one page, then the rest. */
  lemma Unfold(fetch: nat -> PageResult, page: nat)
    requires 1 <= page <= MaxPages
    ensures Continues(fetch, page) ==>
              && Requested(fetch, page, []) == [page] + Requested(fetch, page + 1, [])
              && CollectFrom(fetch, page, []) == Prepend(fetch(page).items, CollectFrom(fetch, page + 1, []))
    ensures !Continues(fetch, page) ==> Requested(fetch, page, []) == [page]
    ensures fetch(page).Failed? ==> CollectFrom(fetch, page, []) == Err(fetch(page).err)
    ensures fetch(page).Batch? && !Continues(fetch, page) ==> CollectFrom(fetch, page, []) == Ok(fetch(page).items)
  {
    RequestedShift(fetch, page + 1, [page]);
    if fetch(page).Batch? {
      assert [] + fetch(page).items == fetch(page).items;
      CollectShift(fetch, page + 1, fetch(page).items);
    }
  }

  /** The pages requested from `page` on are consecutive, start at `page`,
      never go beyond page 3, and all but the last of them were full. */
  lemma {:induction false} RequestedFrom(fetch: nat -> PageResult, page: nat)
    requires 1 <= page <= MaxPages + 1
    ensures var req := Requested(fetch, page, []);
      && |req| <= MaxPages + 1 - page
      && (page <= MaxPages ==> |req| >= 1)
      && (forall i :: 0 <= i < |req| ==> req[i] == page + i)
      && (forall i :: 0 <= i < |req| - 1 ==> Continues(fetch, req[i]))
      && (|req| >= 1 && req[|req| - 1] < MaxPages ==> !Continues(fetch, req[|req| - 1]))
    decreases MaxPages + 1 - page
  {
    var req := Requested(fetch, page, []);
    if page <= MaxPages {
      Unfold(fetch, page);
      if Continues(fetch, page) {
        RequestedFrom(fetch, page + 1);
        var rest := Requested(fetch, page + 1, []);
        assert req == [page] + rest;
        forall i | 0 < i < |req| ensures req[i] == rest[i - 1] {
        }
      } else {
        assert req == [page];
      }
    }
  }

  /** The whole load requests pages 1, 2, ... in order, at most three of them,
      keeps going exactly while pages come back full, and stops right after
      the first page that failed or was not full. */
  lemma RequestedPages(fetch: nat -> PageResult)
    ensures var req := RequestedAll(fetch);
      && 1 <= |req| <= MaxPages
      && (forall i :: 0 <= i < |req| ==> req[i] == i + 1)
      && (forall i :: 0 <= i < |req| - 1 ==> Continues(fetch, req[i]))
      && (|req| < MaxPages ==> !Continues(fetch, req[|req| - 1]))
  {
    RequestedFrom(fetch, 1);
  }

  /** From `page` on, the load fails exactly when the last page it requested failed. */
  lemma {:induction false} CollectFromFails(fetch: nat -> PageResult, page: nat)
    requires 1 <= page <= MaxPages + 1
    ensures var req := Requested(fetch, page, []);
      CollectFrom(fetch, page, []).Err? <==> |req| >= 1 && fetch(req[|req| - 1]).Failed?
    decreases MaxPages + 1 - page
  {
    var req := Requested(fetch, page, []);
    if page <= MaxPages {
      Unfold(fetch, page);
      var rest := Requested(fetch, page + 1, []);
      if Continues(fetch, page) {
        CollectFromFails(fetch, page + 1);
        assert req == [page] + rest;
        if rest != [] {
          assert req[|req| - 1] == rest[|rest| - 1];
        }
      } else {
        assert req == [page];
      }
    }
  }

  /** From `page` on, a successful load requested only pages that succeeded
      and holds their batches concatenated in page order. */
  lemma {:induction false} CollectFromConcat(fetch: nat -> PageResult, page: nat)
    requires 1 <= page <= MaxPages + 1
    requires CollectFrom(fetch, page, []).Ok?
    ensures var req := Requested(fetch, page, []);
      (forall p :: p in req ==> fetch(p).Batch?) && CollectFrom(fetch, page, []).value == Concat(fetch, req)
    decreases MaxPages + 1 - page
  {
    var req := Requested(fetch, page, []);
    if page <= MaxPages {
      Unfold(fetch, page);
      var b := fetch(page).items;
      if Continues(fetch, page) {
        CollectFromConcat(fetch, page + 1);
        var rest := Requested(fetch, page + 1, []);
        assert req == [page] + rest;
        assert req[1..] == rest;
        assert Concat(fetch, req) == b + Concat(fetch, rest);
      } else {
        assert req == [page];
        assert Concat(fetch, req) == b + Concat(fetch, []);
      }
    }
  }

  /** The load fails exactly when the last page it requested failed; when it
      succeeds, every requested page succeeded and the result is their
      batches concatenated in page order. */
  lemma LoadIsConcat(fetch: nat -> PageResult)
    ensures var req := RequestedAll(fetch);
      && (CollectAll(fetch).Err? <==> fetch(req[|req| - 1]).Failed?)
      && (CollectAll(fetch).Ok? ==>
            (forall p :: p in req ==> fetch(p).Batch?) && CollectAll(fetch).value == Concat(fetch, req))
  {
    RequestedFrom(fetch, 1);
    CollectFromFails(fetch, 1);
    if CollectAll(fetch).Ok? {
      CollectFromConcat(fetch, 1);
    }
  }

  /** Pages of at most 100 records each give at most 100 records per
      remaining page. */
  lemma {:induction false} CollectFromBound(fetch: nat -> PageResult, page: nat)
    requires 1 <= page <= MaxPages + 1
    requires forall p :: 1 <= p <= MaxPages && fetch(p).Batch? ==> |fetch(p).items| <= PerPage
    ensures CollectFrom(fetch, page, []).Ok? ==> |CollectFrom(fetch, page, []).value| <= PerPage * (MaxPages + 1 - page)
    decreases MaxPages + 1 - page
  {
    if page <= MaxPages {
      Unfold(fetch, page);
      if Continues(fetch, page) {
        CollectFromBound(fetch, page + 1);
      }
    }
  }

  /** When no page holds more than 100 records, a load collects at most 300. */
  lemma AtMostThreeHundred(fetch: nat -> PageResult)
    requires forall p :: 1 <= p <= MaxPages && fetch(p).Batch? ==> |fetch(p).items| <= PerPage
    ensures CollectAll(fetch).Ok? ==> |CollectAll(fetch).value| <= 300
  {
    CollectFromBound(fetch, 1);
  }

  /** Two full pages and an empty third page: three requests, 200 records,
      stopped by the short page rather than by the page limit. */
  lemma TwoFullPagesThenEmpty(fetch: nat -> PageResult)
    requires fetch(1).Batch? && |fetch(1).items| == PerPage
    requires fetch(2).Batch? && |fetch(2).items| == PerPage
    requires fetch(3) == Batch([])
    ensures RequestedAll(fetch) == [1, 2, 3]
    ensures CollectAll(fetch).Ok? && |CollectAll(fetch).value| == 200
  {
    Unfold(fetch, 1);
    Unfold(fetch, 2);
    Unfold(fetch, 3);
  }

  /** Three full pages: the page limit stops the loop with exactly 300
      records, whatever the server holds beyond them. */
  lemma ThreeFullPages(fetch: nat -> PageResult)
    requires forall p :: 1 <= p <= MaxPages ==> fetch(p).Batch? && |fetch(p).items| == PerPage
    ensures RequestedAll(fetch) == [1, 2, 3]
    ensures CollectAll(fetch).Ok? && |CollectAll(fetch).value| == 300
  {
    Unfold(fetch, 1);
    Unfold(fetch, 2);
    Unfold(fetch, 3);
  }
}
