/**
 * The listing paginator (get_page_of_runbook_procedures). Page n is asked for
 * with limit 100 and offset 100 * n; each non-empty page is appended to the
 * accumulator and its reported total recorded; paging goes on until the
 * accumulated count equals the recorded total, which starts at -1.
 *
 * The server is a sequence of responses: `server[n]` is the answer to the
 * request for page n. A run that reaches the end of that sequence while still
 * paging is `Unfinished`: the length of the sequence bounds how far the model
 * follows a run, the script itself has no such bound.
 */
module Paginator {
  import opened Wrappers
  import opened Records

  const PageSize: nat := 100

  /** The pagination arguments of the listing query. */
  datatype PageRequest = PageRequest(limit: nat, offset: nat)

  function RequestFor(page: nat): PageRequest
  {
    PageRequest(PageSize, page * PageSize)
  }

  /** The listing response, as far as the paginator looks at it. */
  datatype PageResponse =
    | MissingEnvelope
      // data.runbookProcedureListV2 absent or null
    | Page(items: seq<ProcedureSummary>, reportedTotal: Option<int>)
      // `items` is data (absent counts as empty); `reportedTotal` is meta.pagination.total, None when absent

  /** The values carried from one recursive call to the next. */
  datatype PagingState = PagingState(page: nat, procedures: seq<ProcedureSummary>, total: int)

  /** The first call, as load_procedures_from_instance makes it: page 0, total -1. */
  function Start(procedures: seq<ProcedureSummary>): PagingState
  {
    PagingState(0, procedures, -1)
  }

  /** A response the paginator can read without failing. */
  predicate Readable(r: PageResponse)
  {
    r.Page? && (|r.items| > 0 ==> r.reportedTotal.Some?)
  }

  /** The count-equality test that ends the recursion. */
  predicate Balanced(s: PagingState)
  {
    |s.procedures| == s.total
  }

  /** The state after reading a readable response to page `s.page`. */
  function Absorb(s: PagingState, r: PageResponse): (t: PagingState)
    requires Readable(r)
    ensures t.page == s.page + 1
    ensures t.procedures == s.procedures + r.items
    ensures |r.items| > 0 ==> t.total == r.reportedTotal.value
    ensures |r.items| == 0 ==> t.procedures == s.procedures && t.total == s.total
  {
    if |r.items| > 0 then PagingState(s.page + 1, s.procedures + r.items, r.reportedTotal.value)
    else s.(page := s.page + 1)
  }

  /** What one call does with the response to its page. */
  datatype PageStep = Abort(reason: Fatal) | Stop(state: PagingState) | Next(state: PagingState)

  function Step(s: PagingState, r: PageResponse): (o: PageStep)
    ensures o.Abort? <==> !Readable(r)
    ensures r.MissingEnvelope? ==> o == Abort(ListingEnvelopeMissing)
    ensures !o.Abort? ==> o.state == Absorb(s, r)
    ensures o.Stop? <==> Readable(r) && Balanced(Absorb(s, r))
  {
    match r
    case MissingEnvelope => Abort(ListingEnvelopeMissing)
    case Page(items, reported) =>
      if |items| > 0 && reported.None? then Abort(ListingTotalMissing)
      else
        var t := Absorb(s, r);
        if |t.procedures| != t.total then Next(t) else Stop(t)
  }

  /** How a run ends, with the index of the last page requested. */
  datatype PagingOutcome =
    | Complete(procedures: seq<ProcedureSummary>, page: nat)
    | Failed(reason: Fatal, page: nat)
    | Unfinished(state: PagingState)

  /** The recursion of get_page_of_runbook_procedures, from state `s`. */
  function Paginate(server: seq<PageResponse>, s: PagingState): (o: PagingOutcome)
    ensures !o.Unfinished? ==> s.page <= o.page < |server|
    ensures o.Complete? ==> s.procedures <= o.procedures
    ensures o.Unfinished? ==> o.state.page == if s.page < |server| then |server| else s.page
    ensures o.Unfinished? ==> s.procedures <= o.state.procedures
    decreases |server| - s.page
  {
    if s.page >= |server| then Unfinished(s)
    else
      match Step(s, server[s.page])
      case Abort(e) => Failed(e, s.page)
      case Stop(t) => Complete(t.procedures, s.page)
      case Next(t) => Paginate(server, t)
  }

  /** How many pages a run from page 0 has requested. */
  function PagesRequested(server: seq<PageResponse>, o: PagingOutcome): nat
  {
    if o.Unfinished? then |server| else o.page + 1
  }

  /**
   * The paging loop. The caller's list is passed in and the grown list is
   * returned in the outcome; the requests made are returned in order.
   */
  method GetAllPages(server: seq<PageResponse>, procedures: seq<ProcedureSummary>)
    returns (outcome: PagingOutcome, requests: seq<PageRequest>)
    ensures outcome == Paginate(server, Start(procedures))
    ensures |requests| == PagesRequested(server, outcome)
    ensures forall n :: 0 <= n < |requests| ==> requests[n] == RequestFor(n)
  {
    var page: nat, acc, total := 0, procedures, -1;
    requests := [];
    while page < |server|
      invariant Paginate(server, PagingState(page, acc, total)) == Paginate(server, Start(procedures))
      invariant page <= |server|
      invariant |requests| == page
      invariant forall n :: 0 <= n < |requests| ==> requests[n] == RequestFor(n)
      decreases |server| - page
    {
      requests := requests + [RequestFor(page)];
      var response := server[page];
      if response.MissingEnvelope? {
        return Failed(ListingEnvelopeMissing, page), requests;
      }
      if |response.items| > 0 {
        if response.reportedTotal.None? {
          return Failed(ListingTotalMissing, page), requests;
        }
        acc := acc + response.items;
        total := response.reportedTotal.value;
      }
      if |acc| == total {
        return Complete(acc, page), requests;
      }
      page := page + 1;
    }
    outcome := Unfinished(PagingState(page, acc, total));
  }

  // ---------------------------------------------------------------------
  // What a run accumulates and when it stops
  // ---------------------------------------------------------------------

  /** The state reached after absorbing the responses to pages s.page .. j-1 (ignoring failures). */
  ghost function StateAfter(server: seq<PageResponse>, s: PagingState, j: nat): PagingState
    requires j <= |server|
    decreases j - s.page
  {
    if s.page >= j then s
    else if Readable(server[s.page]) then StateAfter(server, Absorb(s, server[s.page]), j)
    else StateAfter(server, s.(page := s.page + 1), j)
  }

  /**
   * The accumulator only grows at its end: each page appends its items, in
   * order, and leaves the total alone when it is empty.
   */
  lemma {:induction false} StateAfterAppends(server: seq<PageResponse>, s: PagingState, j: nat)
    requires s.page <= j < |server|
    requires Readable(server[j])
    ensures StateAfter(server, s, j + 1).procedures == StateAfter(server, s, j).procedures + server[j].items
    ensures |server[j].items| > 0 ==> StateAfter(server, s, j + 1).total == server[j].reportedTotal.value
    ensures |server[j].items| == 0 ==> StateAfter(server, s, j + 1).total == StateAfter(server, s, j).total
    decreases j - s.page
  {
    if s.page == j {
      assert StateAfter(server, s, j) == s;
      assert StateAfter(server, Absorb(s, server[j]), j + 1) == Absorb(s, server[j]);
    } else if Readable(server[s.page]) {
      StateAfterAppends(server, Absorb(s, server[s.page]), j);
    } else {
      StateAfterAppends(server, s.(page := s.page + 1), j);
    }
  }

  /** A run from `s` reads every page up to k, is unbalanced after each page before k, and balanced after k. */
  ghost predicate StopsAt(server: seq<PageResponse>, s: PagingState, k: nat)
  {
    s.page <= k < |server|
    && (forall j :: s.page <= j <= k ==> Readable(server[j]))
    && (forall j :: s.page < j <= k ==> !Balanced(StateAfter(server, s, j)))
    && Balanced(StateAfter(server, s, k + 1))
  }

  /**
   * Paging stops at page k exactly when the accumulated count first equals
   * the recorded total there, and the result is everything accumulated up to
   * and including page k.
   */
  lemma {:induction false} CompleteIff(server: seq<PageResponse>, s: PagingState, k: nat)
    ensures Paginate(server, s).Complete? && Paginate(server, s).page == k <==> StopsAt(server, s, k)
    ensures StopsAt(server, s, k) ==> Paginate(server, s).procedures == StateAfter(server, s, k + 1).procedures
    decreases |server| - s.page
  {
    if s.page < |server| {
      var r := server[s.page];
      if Readable(r) {
        var t := Absorb(s, r);
        assert StateAfter(server, s, s.page + 1) == t by {
          assert StateAfter(server, t, s.page + 1) == t;
        }
        if Balanced(t) {
          assert Balanced(StateAfter(server, s, s.page + 1));
        } else {
          CompleteIff(server, t, k);
          forall j | s.page < j <= k + 1 && j <= |server|
            ensures StateAfter(server, s, j) == StateAfter(server, t, j)
          {
            StateAfterShift(server, s, j);
          }
          if StopsAt(server, t, k) {
            assert StopsAt(server, s, k);
          }
          if StopsAt(server, s, k) {
            assert k != s.page;
            assert StopsAt(server, t, k);
          }
        }
      }
    }
  }

  /** Absorbing the first readable page does not change the states reached later. */
  lemma StateAfterShift(server: seq<PageResponse>, s: PagingState, j: nat)
    requires s.page < j <= |server|
    requires Readable(server[s.page])
    ensures StateAfter(server, s, j) == StateAfter(server, Absorb(s, server[s.page]), j)
  {
  }

  /**
   * A response without the listing envelope, or a non-empty page without a
   * total, ends the run with a fatal error and no result, at that page.
   */
  lemma {:induction false} FailedAtUnreadable(server: seq<PageResponse>, s: PagingState, k: nat)
    requires s.page <= k < |server|
    requires forall j :: s.page <= j < k ==> Readable(server[j]) && !Balanced(StateAfter(server, s, j + 1))
    requires !Readable(server[k])
    ensures Paginate(server, s).Failed? && Paginate(server, s).page == k
    ensures server[k].MissingEnvelope? ==> Paginate(server, s).reason == ListingEnvelopeMissing
    decreases k - s.page
  {
    if s.page < k {
      var t := Absorb(s, server[s.page]);
      assert StateAfter(server, s, s.page + 1) == t by {
        assert StateAfter(server, t, s.page + 1) == t;
      }
      forall j | t.page <= j < k ensures Readable(server[j]) && !Balanced(StateAfter(server, t, j + 1)) {
        StateAfterShift(server, s, j + 1);
      }
      FailedAtUnreadable(server, t, k);
    }
  }

  /**
   * Pages that are all empty never end the run while the count and the
   * recorded total differ: in particular, from the first call (total -1) a
   * server that only answers empty pages is paged forever.
   */
  lemma {:induction false} EmptyPagesNeverStop(server: seq<PageResponse>, s: PagingState)
    requires forall j :: s.page <= j < |server| ==> server[j].Page? && server[j].items == []
    requires !Balanced(s)
    ensures Paginate(server, s) == Unfinished(s.(page := if s.page < |server| then |server| else s.page))
    decreases |server| - s.page
  {
    if s.page < |server| {
      EmptyPagesNeverStop(server, s.(page := s.page + 1));
    }
  }

  lemma EmptyListingNeverStops(server: seq<PageResponse>)
    requires forall j :: 0 <= j < |server| ==> server[j].Page? && server[j].items == []
    ensures Paginate(server, Start([])) == Unfinished(PagingState(|server|, [], -1))
  {
    EmptyPagesNeverStop(server, Start([]));
  }

  // ---------------------------------------------------------------------
  // A server whose pages are consistent with its reported total
  // ---------------------------------------------------------------------

  function Flatten(chunks: seq<seq<ProcedureSummary>>): seq<ProcedureSummary>
  {
    if chunks == [] then [] else Flatten(chunks[..|chunks| - 1]) + chunks[|chunks| - 1]
  }

  /** The index of the last non-empty chunk, -1 when every chunk is empty. */
  function LastFilled(chunks: seq<seq<ProcedureSummary>>): (k: int)
    ensures -1 <= k < |chunks|
    ensures k >= 0 ==> |chunks[k]| > 0
    ensures forall j :: k < j < |chunks| ==> chunks[j] == []
  {
    if chunks == [] then -1
    else if |chunks[|chunks| - 1]| > 0 then |chunks| - 1
    else LastFilled(chunks[..|chunks| - 1])
  }

  /**
   * Page i holds chunk i, and each non-empty page reports the sum of all
   * chunk sizes as the total (the total of an empty page is never read).
   */
  ghost predicate Consistent(server: seq<PageResponse>, chunks: seq<seq<ProcedureSummary>>)
  {
    |chunks| <= |server|
    && (forall i :: 0 <= i < |chunks| ==> server[i].Page? && server[i].items == chunks[i])
    && (forall i :: 0 <= i < |chunks| && |chunks[i]| > 0 ==> server[i].reportedTotal == Some(|Flatten(chunks)|))
  }

  lemma FlattenStep(chunks: seq<seq<ProcedureSummary>>, i: nat)
    requires i < |chunks|
    ensures Flatten(chunks[..i + 1]) == Flatten(chunks[..i]) + chunks[i]
  {
    assert chunks[..i + 1][..i] == chunks[..i];
  }

  lemma {:induction false} FlattenMonotone(chunks: seq<seq<ProcedureSummary>>, i: nat, j: nat)
    requires i <= j <= |chunks|
    ensures |Flatten(chunks[..i])| <= |Flatten(chunks[..j])|
    decreases j - i
  {
    if i < j {
      FlattenMonotone(chunks, i, j - 1);
      FlattenStep(chunks, j - 1);
    }
  }

  lemma {:induction false} FlattenTrailingEmpty(chunks: seq<seq<ProcedureSummary>>, k: nat, j: nat)
    requires k <= j <= |chunks|
    requires forall n :: k <= n < |chunks| ==> chunks[n] == []
    ensures Flatten(chunks[..j]) == Flatten(chunks[..k])
    decreases j - k
  {
    if k < j {
      FlattenTrailingEmpty(chunks, k, j - 1);
      FlattenStep(chunks, j - 1);
    }
  }

  /**
   * When the non-empty pages concatenate to the listing and each reports its
   * length, a run from an empty accumulator returns every item, in page
   * order, and stops at the last non-empty page; empty pages on the way are
   * passed over.
   */
  lemma ConsistentServerYieldsAll(server: seq<PageResponse>, chunks: seq<seq<ProcedureSummary>>)
    requires Consistent(server, chunks) && LastFilled(chunks) >= 0
    ensures Paginate(server, Start([])) == Complete(Flatten(chunks), LastFilled(chunks))
  {
    assert chunks[..0] == [];
    ConsistentFrom(server, chunks, 0);
  }

  lemma {:induction false} ConsistentFrom(server: seq<PageResponse>, chunks: seq<seq<ProcedureSummary>>, i: nat)
    requires Consistent(server, chunks) && i <= LastFilled(chunks)
    ensures Paginate(server, PagingState(i, Flatten(chunks[..i]), if Flatten(chunks[..i]) == [] then -1 else |Flatten(chunks)|))
         == Complete(Flatten(chunks), LastFilled(chunks))
    decreases |chunks| - i
  {
    var last := LastFilled(chunks);
    var total := |Flatten(chunks)|;
    var s := PagingState(i, Flatten(chunks[..i]), if Flatten(chunks[..i]) == [] then -1 else total);
    assert Readable(server[i]);
    var t := Absorb(s, server[i]);
    FlattenStep(chunks, i);
    assert t.procedures == Flatten(chunks[..i + 1]);
    assert t.total == if Flatten(chunks[..i + 1]) == [] then -1 else total;
    if i == last {
      FlattenTrailingEmpty(chunks, i + 1, |chunks|);
      assert chunks[..|chunks|] == chunks;
      assert Balanced(t);
    } else {
      FlattenMonotone(chunks, i + 1, last);
      FlattenStep(chunks, last);
      FlattenMonotone(chunks, last + 1, |chunks|);
      assert chunks[..|chunks|] == chunks;
      assert !Balanced(t);
      ConsistentFrom(server, chunks, i + 1);
    }
  }
}
