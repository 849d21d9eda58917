/**
 * The bulk loader (add_procedures_to_repo): each creation request, in list
 * order, has its data.repositoryId overwritten in place with the destination
 * repository's id and is then submitted once; a submission that raises is
 * skipped and the loop goes on.
 */
module BulkLoader {
  import opened Records

  /**
   * What the server did with one creation mutation. The script never reads
   * the response: `Accepted` and `Rejected` (an answer without an exception
   * that creates nothing, such as a GraphQL error) both take the path that
   * logs success; only `Raised` takes the exception path.
   */
  datatype SubmitReply = Accepted | Rejected | Raised

  /** A request with its repository id replaced and every other field kept. */
  function BoundTo(p: CreateRequest, repoId: string): (q: CreateRequest)
    ensures q.data.repositoryId == repoId
    ensures q.data.name == p.data.name && q.data.shortName == p.data.shortName
    ensures q.data.description == p.data.description
    ensures q.executionSteps == p.executionSteps && q.techniqueIds == p.techniqueIds && q.tags == p.tags
  {
    p.(data := p.data.(repositoryId := repoId))
  }

  /** The list after the loop: every request bound to the destination. */
  function Rebind(ps: seq<CreateRequest>, repoId: string): (r: seq<CreateRequest>)
    ensures |r| == |ps|
  {
    seq(|ps|, i requires 0 <= i < |ps| => BoundTo(ps[i], repoId))
  }

  /** The requests the destination repository ends up holding: those the server accepted. */
  function Created(submitted: seq<CreateRequest>, replies: seq<SubmitReply>): (r: seq<CreateRequest>)
    requires |replies| == |submitted|
    ensures |r| <= |submitted|
  {
    if submitted == [] then []
    else
      var n := |submitted| - 1;
      Created(submitted[..n], replies[..n]) + (if replies[n] == Accepted then [submitted[n]] else [])
  }

  /**
   * The loop. `replies[i]` is how the submission of the i-th request ends.
   * Returns the requests in the order they were submitted and those that
   * were created.
   */
  method AddProceduresToRepo(repoId: string, procedures: array<CreateRequest>, replies: seq<SubmitReply>)
    returns (submitted: seq<CreateRequest>, created: seq<CreateRequest>)
    requires |replies| == procedures.Length
    modifies procedures
    ensures procedures[..] == Rebind(old(procedures[..]), repoId)
    ensures submitted == procedures[..]
    ensures created == Created(submitted, replies)
  {
    submitted, created := [], [];
    for i := 0 to procedures.Length
      invariant forall j :: 0 <= j < i ==> procedures[j] == BoundTo(old(procedures[j]), repoId)
      invariant forall j :: i <= j < procedures.Length ==> procedures[j] == old(procedures[j])
      invariant submitted == procedures[..i]
      invariant created == Created(submitted, replies[..i])
    {
      procedures[i] := BoundTo(procedures[i], repoId);
      submitted := submitted + [procedures[i]];
      if replies[i] == Accepted {
        created := created + [procedures[i]];
      }
      assert replies[..i + 1][..i] == replies[..i];
      assert submitted[..i] == procedures[..i];
    }
    assert replies[..procedures.Length] == replies;
  }

  // ---------------------------------------------------------------------
  // Properties of the loop's result
  // ---------------------------------------------------------------------

  /** Every created procedure belongs to the destination repository, never the source. */
  lemma {:induction false} CreatedInDestination(ps: seq<CreateRequest>, replies: seq<SubmitReply>, repoId: string)
    requires |replies| == |ps|
    ensures forall q :: q in Created(Rebind(ps, repoId), replies) ==> q.data.repositoryId == repoId
  {
    forall q | q in Created(Rebind(ps, repoId), replies) ensures q.data.repositoryId == repoId {
      CreatedSubset(Rebind(ps, repoId), replies, q);
    }
  }

  lemma {:induction false} CreatedSubset(ps: seq<CreateRequest>, replies: seq<SubmitReply>, q: CreateRequest)
    requires |replies| == |ps|
    requires q in Created(ps, replies)
    ensures exists i :: 0 <= i < |ps| && replies[i] == Accepted && ps[i] == q
    decreases |ps|
  {
    var n := |ps| - 1;
    if q in Created(ps[..n], replies[..n]) {
      CreatedSubset(ps[..n], replies[..n], q);
      var i :| 0 <= i < n && replies[..n][i] == Accepted && ps[..n][i] == q;
      assert replies[i] == Accepted && ps[i] == q;
    } else {
      assert replies[n] == Accepted && ps[n] == q;
    }
  }

  /** Submissions are independent: the outcome of a + b is that of a followed by that of b. */
  lemma {:induction false} CreatedAppend(a: seq<CreateRequest>, ra: seq<SubmitReply>, b: seq<CreateRequest>, rb: seq<SubmitReply>)
    requires |ra| == |a| && |rb| == |b|
    ensures Created(a + b, ra + rb) == Created(a, ra) + Created(b, rb)
    decreases |b|
  {
    if b == [] {
      assert a + b == a && ra + rb == ra;
    } else {
      var n := |b| - 1;
      assert (a + b)[..|a + b| - 1] == a + b[..n];
      assert (ra + rb)[..|ra + rb| - 1] == ra + rb[..n];
      CreatedAppend(a, ra, b[..n], rb[..n]);
    }
  }

  /** A failing submission, raised or rejected, is skipped and does not keep any later request from being created. */
  lemma {:induction false} FailureSkipped(a: seq<CreateRequest>, ra: seq<SubmitReply>, p: CreateRequest, reply: SubmitReply,
                                          b: seq<CreateRequest>, rb: seq<SubmitReply>)
    requires |ra| == |a| && |rb| == |b|
    requires reply != Accepted
    ensures Created(a + [p] + b, ra + [reply] + rb) == Created(a, ra) + Created(b, rb)
  {
    assert Created([p], [reply]) == [] by {
      assert [p][..0] == [] && [reply][..0] == [];
    }
    CreatedAppend(a, ra, [p], [reply]);
    CreatedAppend(a + [p], ra + [reply], b, rb);
  }

  /** When every submission is accepted, the destination holds every request, in order. */
  lemma {:induction false} AllAccepted(ps: seq<CreateRequest>, replies: seq<SubmitReply>)
    requires |replies| == |ps|
    requires forall i :: 0 <= i < |replies| ==> replies[i] == Accepted
    ensures Created(ps, replies) == ps
    decreases |ps|
  {
    if ps != [] {
      var n := |ps| - 1;
      AllAccepted(ps[..n], replies[..n]);
      assert ps == ps[..n] + [ps[n]];
    }
  }
}
