/**
 * The tournament dump (save_tournaments.js): a cursor-driven pagination loop that
 * accumulates every page's nodes, retries the same cursor when the upstream rate-limits,
 * aborts on any other error and stops right after the page that has no next page.
 *
 * The page fetcher is not modelled: the run is given the sequence of responses it
 * will receive, one per fetch, in order.
 */
module Harvester {
  import opened Common
  import opened Text

  /** A pagination cursor; `None` is the initial `null`. */
  type Cursor = Option<string>

  /** What one call of the page fetcher yields: a page, or a thrown error with its `message`. */
  datatype Response =
    | Page(nodes: seq<Tournament>, hasNextPage: bool, endCursor: Cursor)
    | Thrown(message: Option<string>)

  /** One "Fetching page N (after=...)" progress line: the page number and the cursor sent. */
  datatype FetchLine = FetchLine(page: nat, after: Cursor)

  /** How a harvest ends. `OutOfResponses` means the supplied responses ran out first. */
  datatype HarvestEnd =
    | Done(snapshot: Snapshot)
    | Failed(message: Option<string>)
    | OutOfResponses

  /** The end of a harvest together with every fetch it made, in order. */
  datatype Run = Run(end: HarvestEnd, fetches: seq<FetchLine>)

  const CalmMarker: string := "ENHANCE_YOUR_CALM"
  const RateLimitWords: string := "rate limit"
  const UnavailableWords: string := "unavailable"

  /** `isRateLimitError`: a missing message reads as the empty string. */
  function IsRateLimitError(message: Option<string>): (b: bool)
    ensures message.None? ==> !b
  {
    var msg := message.GetOr("");
    assert message.None? ==>
      (!OccursAt(msg, CalmMarker, 0) && !OccursAt(ToLower(msg), RateLimitWords, 0) && !OccursAt(ToLower(msg), UnavailableWords, 0));
    Contains(msg, CalmMarker)
      || Contains(ToLower(msg), RateLimitWords)
      || Contains(ToLower(msg), UnavailableWords)
  }

  /** A message with the upstream marker, or with any capitalisation of "rate limit" or
      "unavailable", anywhere in it is a rate-limit error. */
  lemma RateLimitMarkerAnywhere(p: string, m: string, q: string)
    requires m == CalmMarker || ToLower(m) == RateLimitWords || ToLower(m) == UnavailableWords
    ensures IsRateLimitError(Some(p + m + q))
  {
    ToLowerConcat(p + m, q);
    ToLowerConcat(p, m);
    if m == CalmMarker {
      ContainsInfix(p, m, q);
    } else {
      ContainsInfix(ToLower(p), ToLower(m), ToLower(q));
    }
  }

  /** A message in which no marker occurs, in any position, is fatal. */
  lemma NoMarkerIsFatal(s: string)
    requires forall i :: !OccursAt(s, CalmMarker, i)
    requires forall i :: !OccursAt(ToLower(s), RateLimitWords, i)
    requires forall i :: !OccursAt(ToLower(s), UnavailableWords, i)
    ensures !IsRateLimitError(Some(s))
  {
  }

  /** A response after which the loop does not fetch again. */
  predicate Stops(r: Response) {
    match r
    case Page(_, hasNextPage, _) => !hasNextPage
    case Thrown(message) => !IsRateLimitError(message)
  }

  /** The nodes of the successful pages among `rs`, in order. */
  function Collected(rs: seq<Response>): seq<Tournament>
  {
    if rs == [] then []
    else (if rs[0].Page? then rs[0].nodes else []) + Collected(rs[1..])
  }

  /** The progress line of the fetch that follows response `r` to fetch `f`. */
  function NextFetch(f: FetchLine, r: Response): FetchLine
  {
    if r.Page? then FetchLine(f.page + 1, r.endCursor) else f
  }

  /**
   * The loop of `main`, from a state with cursor `after`, page counter `page` and
   * accumulator `all`, fed the responses `rs`; `exportedAt` is the clock reading taken
   * when the snapshot is assembled.
   */
  function Drive(rs: seq<Response>, after: Cursor, page: nat, all: seq<Tournament>, exportedAt: string): (r: Run)
    ensures |r.fetches| <= |rs|
    ensures r.end.Done? ==> r.end.snapshot.count == |r.end.snapshot.items|
    ensures r.end.Done? ==> r.end.snapshot.exportedAt == exportedAt
    ensures r.end.Done? ==> |all| <= |r.end.snapshot.items| && r.end.snapshot.items[..|all|] == all
    decreases |rs|
  {
    if rs == [] then Run(OutOfResponses, [])
    else
      var line := FetchLine(page + 1, after);
      match rs[0]
      case Page(nodes, hasNextPage, endCursor) =>
        if !hasNextPage then
          Run(Done(Snapshot(exportedAt, |all + nodes|, all + nodes)), [line])
        else
          var rest := Drive(rs[1..], endCursor, page + 1, all + nodes, exportedAt);
          assert rest.end.Done? ==> rest.end.snapshot.items[..|all|] == (all + nodes)[..|all|];
          Run(rest.end, [line] + rest.fetches)
      case Thrown(message) =>
        if IsRateLimitError(message) then
          var rest := Drive(rs[1..], after, page, all, exportedAt);
          Run(rest.end, [line] + rest.fetches)
        else
          Run(Failed(message), [line])
  }

  /**
   * `main`: starts from a null cursor, page 0 and an empty accumulator and loops until a
   * last page (the snapshot is then assembled) or a fatal error.
   */
  method Harvest(responses: seq<Response>, exportedAt: string) returns (end: HarvestEnd, fetches: seq<FetchLine>)
    ensures Run(end, fetches) == Drive(responses, None, 0, [], exportedAt)
    ensures |fetches| <= |responses|
    ensures |responses| > 0 ==> |fetches| > 0 && fetches[0] == FetchLine(1, None)
    ensures end.Done? ==> end.snapshot == Snapshot(exportedAt, |Collected(responses[..|fetches|])|, Collected(responses[..|fetches|]))
    ensures end.Failed? ==> !IsRateLimitError(end.message)
  {
    var after: Cursor := None;
    var page: nat := 0;
    var all: seq<Tournament> := [];
    var i := 0;
    fetches := [];
    ghost var whole := Drive(responses, None, 0, [], exportedAt);
    FetchTrace(responses, None, 0, [], exportedAt);
    assert |responses| > 0 ==> |whole.fetches| > 0;
    while true
      invariant 0 <= i <= |responses|
      invariant Drive(responses[i..], after, page, all, exportedAt).end == whole.end
      invariant fetches + Drive(responses[i..], after, page, all, exportedAt).fetches == whole.fetches
      decreases |responses| - i
    {
      if i == |responses| {
        end := OutOfResponses;
        DriveOutcome(responses, None, 0, [], exportedAt);
        return;
      }
      ghost var before := Drive(responses[i..], after, page, all, exportedAt);
      assert responses[i..][1..] == responses[i + 1..];
      page := page + 1;
      fetches := fetches + [FetchLine(page, after)];
      var response := responses[i];
      i := i + 1;
      match response
      case Page(nodes, hasNextPage, endCursor) =>
        all := all + nodes;
        if !hasNextPage {
          assert before == Run(Done(Snapshot(exportedAt, |all|, all)), [FetchLine(page, after)]);
          break;
        }
        after := endCursor;
      case Thrown(message) =>
        if IsRateLimitError(message) {
          page := page - 1;
          continue;
        }
        end := Failed(message);
        DriveOutcome(responses, None, 0, [], exportedAt);
        return;
    }
    end := Done(Snapshot(exportedAt, |all|, all));
    DriveOutcome(responses, None, 0, [], exportedAt);
  }

  /** One step of `Drive` on a response after which the loop goes on. */
  lemma DriveStep(rs: seq<Response>, after: Cursor, page: nat, all: seq<Tournament>, exportedAt: string)
    requires rs != [] && !Stops(rs[0])
    ensures var rest := Drive(rs[1..], NextCursor(after, rs[0]), NextPage(page, rs[0]), all + NodesOf(rs[0]), exportedAt);
      Drive(rs, after, page, all, exportedAt) == Run(rest.end, [FetchLine(page + 1, after)] + rest.fetches)
  {
    match rs[0]
    case Page(nodes, hasNextPage, endCursor) =>
      assert hasNextPage;
    case Thrown(message) =>
      assert IsRateLimitError(message) && all + NodesOf(rs[0]) == all;
  }

  /**
   * The script as a whole: without an endpoint or an auth value it exits before any
   * fetch (`None`); otherwise it harvests.
   */
  method DumpTournaments(endpoint: Option<string>, authValue: Option<string>, responses: seq<Response>,
                         exportedAt: string)
    returns (end: Option<HarvestEnd>, fetches: seq<FetchLine>)
    ensures !(Truthy(endpoint) && Truthy(authValue)) ==> end.None? && fetches == []
    ensures Truthy(endpoint) && Truthy(authValue) ==>
      end.Some? && Run(end.value, fetches) == Drive(responses, None, 0, [], exportedAt)
  {
    if !Truthy(endpoint) || !Truthy(authValue) {
      return None, [];
    }
    var e;
    e, fetches := Harvest(responses, exportedAt);
    end := Some(e);
  }

  /** What `Drive` ends with, in terms of the responses it consumed. */
  lemma {:induction false} DriveOutcome(rs: seq<Response>, after: Cursor, page: nat, all: seq<Tournament>, exportedAt: string)
    ensures var r := Drive(rs, after, page, all, exportedAt);
      var used := rs[..|r.fetches|];
      && (r.end.Done? ==> r.end.snapshot.items == all + Collected(used))
      && (r.end.Failed? ==> |used| > 0 && used[|used| - 1] == Thrown(r.end.message) && !IsRateLimitError(r.end.message))
  {
    if rs != [] && !Stops(rs[0]) {
      var r0 := rs[0];
      var after', page', all' := NextCursor(after, r0), NextPage(page, r0), all + NodesOf(r0);
      DriveOutcome(rs[1..], after', page', all', exportedAt);
      DriveStep(rs, after, page, all, exportedAt);
      var rest := Drive(rs[1..], after', page', all', exportedAt);
      var r := Drive(rs, after, page, all, exportedAt);
      assert rs[..|r.fetches|][1..] == rs[1..][..|rest.fetches|];
      assert rs[..|r.fetches|][0] == r0;
    } else if rs != [] {
      assert rs[..1][1..] == [];
    }
  }

  /**
   * The loop stops at the first response after which it does not fetch again: it makes
   * exactly one fetch per response up to that one, and either delivers every node of
   * every page received, in order, or fails with that response's error.
   */
  lemma {:induction false} StopsAtFirstStop(rs: seq<Response>, after: Cursor, page: nat, all: seq<Tournament>,
                                            exportedAt: string, k: nat)
    requires k < |rs| && Stops(rs[k])
    requires forall j :: 0 <= j < k ==> !Stops(rs[j])
    ensures var r := Drive(rs, after, page, all, exportedAt);
      var items := all + Collected(rs[..k + 1]);
      && |r.fetches| == k + 1
      && (rs[k].Page? ==> r.end == Done(Snapshot(exportedAt, |items|, items)))
      && (rs[k].Thrown? ==> r.end == Failed(rs[k].message))
  {
    if k == 0 {
      assert rs[..1] == [rs[0]] && rs[..1][1..] == [];
    } else {
      var r0 := rs[0];
      StopsAtFirstStop(rs[1..], NextCursor(after, r0), NextPage(page, r0), all + NodesOf(r0), exportedAt, k - 1);
      DriveStep(rs, after, page, all, exportedAt);
      assert rs[..k + 1][1..] == rs[1..][..k];
      assert rs[..k + 1][0] == r0;
    }
  }

  /** Without any stopping response the loop fetches once per response and runs out. */
  lemma {:induction false} RunsOutWithoutStop(rs: seq<Response>, after: Cursor, page: nat, all: seq<Tournament>,
                                              exportedAt: string)
    requires forall j :: 0 <= j < |rs| ==> !Stops(rs[j])
    ensures Drive(rs, after, page, all, exportedAt).end == OutOfResponses
    ensures |Drive(rs, after, page, all, exportedAt).fetches| == |rs|
  {
    if rs != [] {
      var r0 := rs[0];
      RunsOutWithoutStop(rs[1..], NextCursor(after, r0), NextPage(page, r0), all + NodesOf(r0), exportedAt);
      DriveStep(rs, after, page, all, exportedAt);
    }
  }

  /**
   * The cursor and page-number discipline: the first fetch is page `page + 1` with the
   * current cursor; after a page the next fetch logs that page's `endCursor` with the page
   * number plus one, and after a rate-limit error it repeats the same page and cursor.
   */
  lemma {:induction false} FetchTrace(rs: seq<Response>, after: Cursor, page: nat, all: seq<Tournament>,
                                      exportedAt: string)
    ensures var f := Drive(rs, after, page, all, exportedAt).fetches;
      && (|f| > 0 ==> f[0] == FetchLine(page + 1, after))
      && (forall j :: 0 <= j < |f| - 1 ==> !Stops(rs[j]) && f[j + 1] == NextFetch(f[j], rs[j]))
  {
    if rs != [] && !Stops(rs[0]) {
      var r0 := rs[0];
      var after', page', all' := NextCursor(after, r0), NextPage(page, r0), all + NodesOf(r0);
      FetchTrace(rs[1..], after', page', all', exportedAt);
      DriveStep(rs, after, page, all, exportedAt);
      var f := Drive(rs, after, page, all, exportedAt).fetches;
      var g := Drive(rs[1..], after', page', all', exportedAt).fetches;
      assert f == [FetchLine(page + 1, after)] + g;
      forall j | 0 <= j < |f| - 1
        ensures !Stops(rs[j]) && f[j + 1] == NextFetch(f[j], rs[j])
      {
        if j > 0 {
          assert rs[j] == rs[1..][j - 1];
        }
      }
    }
  }

  /** The responses with every rate-limit error taken out. */
  function WithoutRetries(rs: seq<Response>): seq<Response>
  {
    if rs == [] then []
    else (if rs[0].Thrown? && IsRateLimitError(rs[0].message) then [] else [rs[0]]) + WithoutRetries(rs[1..])
  }

  /** Rate-limit errors, wherever they occur, change nothing in how the harvest ends:
      every record is delivered exactly once, with no duplicate and no gap. */
  lemma {:induction false} RetriesChangeNothing(rs: seq<Response>, after: Cursor, page: nat, all: seq<Tournament>,
                                                exportedAt: string)
    ensures Drive(rs, after, page, all, exportedAt).end == Drive(WithoutRetries(rs), after, page, all, exportedAt).end
  {
    if rs != [] {
      var r0 := rs[0];
      var w := WithoutRetries(rs);
      if r0.Thrown? && IsRateLimitError(r0.message) {
        RetriesChangeNothing(rs[1..], after, page, all, exportedAt);
        DriveStep(rs, after, page, all, exportedAt);
        assert w == [] + WithoutRetries(rs[1..]);
        assert w == WithoutRetries(rs[1..]);
        assert all + NodesOf(r0) == all;
      } else {
        assert w == [r0] + WithoutRetries(rs[1..]);
        assert w[0] == r0 && w[1..] == WithoutRetries(rs[1..]);
        if !Stops(r0) {
          RetriesChangeNothing(rs[1..], NextCursor(after, r0), NextPage(page, r0), all + NodesOf(r0), exportedAt);
          DriveStep(rs, after, page, all, exportedAt);
          DriveStep(w, after, page, all, exportedAt);
        }
      }
    }
  }

  /**
   * A well-behaved upstream: the collection `items` served in pages of `size` records,
   * every page but the last announcing a next page; `cursor(n)` is page n's end cursor.
   */
  function Paginate(items: seq<Tournament>, size: nat, cursor: nat -> Cursor, n: nat): (rs: seq<Response>)
    requires size > 0
    ensures |rs| >= 1
    decreases |items|
  {
    if |items| <= size then [Page(items, false, cursor(n))]
    else [Page(items[..size], true, cursor(n))] + Paginate(items[size..], size, cursor, n + 1)
  }

  /** The number of pages `Paginate` serves: one for an empty collection, else the
      number of records divided by the page size, rounded up. */
  function PageCount(count: nat, size: nat): (pages: nat)
    requires size > 0
    ensures pages >= 1 && count <= pages * size
    ensures count > 0 ==> (pages - 1) * size < count
    ensures count == 0 ==> pages == 1
    decreases count
  {
    if count <= size then 1
    else
      var rest := PageCount(count - size, size);
      assert (1 + rest) * size == size + rest * size;
      assert rest * size == (rest - 1) * size + size;
      1 + rest
  }

  lemma {:induction false} PaginateCount(items: seq<Tournament>, size: nat, cursor: nat -> Cursor, n: nat)
    requires size > 0
    ensures |Paginate(items, size, cursor, n)| == PageCount(|items|, size)
    decreases |items|
  {
    if |items| > size {
      PaginateCount(items[size..], size, cursor, n + 1);
    }
  }

  lemma {:induction false} PaginateCollected(items: seq<Tournament>, size: nat, cursor: nat -> Cursor, n: nat)
    requires size > 0
    ensures Collected(Paginate(items, size, cursor, n)) == items
    decreases |items|
  {
    var rs := Paginate(items, size, cursor, n);
    if |items| > size {
      var tail := Paginate(items[size..], size, cursor, n + 1);
      PaginateCollected(items[size..], size, cursor, n + 1);
      assert rs[0] == Page(items[..size], true, cursor(n)) && rs[1..] == tail;
      assert items[..size] + items[size..] == items;
    } else {
      assert rs[1..] == [];
      assert items + [] == items;
    }
  }

  lemma {:induction false} PaginateStops(items: seq<Tournament>, size: nat, cursor: nat -> Cursor, n: nat)
    requires size > 0
    ensures var rs := Paginate(items, size, cursor, n);
      && rs[|rs| - 1].Page? && Stops(rs[|rs| - 1])
      && forall j :: 0 <= j < |rs| - 1 ==> !Stops(rs[j])
    decreases |items|
  {
    var rs := Paginate(items, size, cursor, n);
    if |items| > size {
      var tail := Paginate(items[size..], size, cursor, n + 1);
      PaginateStops(items[size..], size, cursor, n + 1);
      assert rs == [rs[0]] + tail;
      assert rs[|rs| - 1] == tail[|tail| - 1];
      forall j | 0 <= j < |rs| - 1
        ensures !Stops(rs[j])
      {
        if j > 0 {
          assert rs[j] == tail[j - 1];
        }
      }
    }
  }

  /** Harvesting a well-behaved upstream returns the whole collection, in order, after
      exactly one fetch per page and no further fetch. */
  lemma CompleteHarvest(items: seq<Tournament>, size: nat, cursor: nat -> Cursor, exportedAt: string)
    requires size > 0
    ensures var rs := Paginate(items, size, cursor, 0);
      var r := Drive(rs, None, 0, [], exportedAt);
      && r.end == Done(Snapshot(exportedAt, |items|, items))
      && |r.fetches| == |rs| == PageCount(|items|, size)
  {
    var rs := Paginate(items, size, cursor, 0);
    PaginateCount(items, size, cursor, 0);
    PaginateCollected(items, size, cursor, 0);
    PaginateStops(items, size, cursor, 0);
    StopsAtFirstStop(rs, None, 0, [], exportedAt, |rs| - 1);
    assert rs[..|rs|] == rs;
    assert [] + Collected(rs[..|rs|]) == items;
  }

  /** The same holds when rate-limit errors are interleaved anywhere in the responses. */
  lemma CompleteHarvestDespiteRetries(rs: seq<Response>, items: seq<Tournament>, size: nat, cursor: nat -> Cursor,
                                      exportedAt: string)
    requires size > 0
    requires WithoutRetries(rs) == Paginate(items, size, cursor, 0)
    ensures Drive(rs, None, 0, [], exportedAt).end == Done(Snapshot(exportedAt, |items|, items))
  {
    RetriesChangeNothing(rs, None, 0, [], exportedAt);
    CompleteHarvest(items, size, cursor, exportedAt);
  }

  /** 120 records in pages of 50: three fetches, then the snapshot of all 120. */
  lemma HundredTwentyInPagesOfFifty(items: seq<Tournament>, cursor: nat -> Cursor, exportedAt: string)
    requires |items| == 120
    ensures var r := Drive(Paginate(items, 50, cursor, 0), None, 0, [], exportedAt);
      r.end == Done(Snapshot(exportedAt, 120, items)) && |r.fetches| == 3
  {
    CompleteHarvest(items, 50, cursor, exportedAt);
    assert PageCount(120, 50) == 3;
  }

  function NextCursor(after: Cursor, r: Response): Cursor { if r.Page? then r.endCursor else after }
  function NextPage(page: nat, r: Response): nat { if r.Page? then page + 1 else page }
  function NodesOf(r: Response): seq<Tournament> { if r.Page? then r.nodes else [] }
}
