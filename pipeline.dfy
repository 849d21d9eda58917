/**
 * load_procedures_from_instance: page through the listing, keep the curated
 * procedures nobody can edit, fetch and reshape each one, and ask the
 * operator when some were lost on the way. Combined with the bulk loader,
 * this gives what the destination repository ends up holding.
 */
module Pipeline {
  import opened Wrappers
  import opened Records
  import opened Paginator
  import opened Selection
  import opened DetailFetcher
  import opened BulkLoader

  /** How the loading half of a run ends. */
  datatype LoadOutcome =
    | Loaded(procedures: seq<CreateRequest>)
    | Aborted(reason: Fatal)
    | StillPaging   // the listing's recorded answers ran out while the paginator was still asking

  /**
   * The loading stage as a whole: it loads only after paging completes, never
   * more requests than selected procedures, and fewer only with the
   * operator's consent; a fatal listing response ends it as paging does.
   */
  function LoadFromInstance(listing: seq<PageResponse>, detailOf: string -> DetailResponse, proceed: bool)
    : (o: LoadOutcome)
    ensures o.Loaded? ==> Paginate(listing, Start([])).Complete?
    ensures o.Loaded? ==> |o.procedures| <= |SelectCurated(Paginate(listing, Start([])).procedures)|
    ensures o.Loaded? && !proceed ==> |o.procedures| == |SelectCurated(Paginate(listing, Start([])).procedures)|
    ensures o == StillPaging <==> Paginate(listing, Start([])).Unfinished?
    ensures Paginate(listing, Start([])).Failed? ==> o == Aborted(Paginate(listing, Start([])).reason)
  {
    match Paginate(listing, Start([]))
    case Failed(e, _) => Aborted(e)
    case Unfinished(_) => StillPaging
    case Complete(all, _) =>
      var selected := SelectCurated(all);
      match ConfirmLoaded(|selected|, Collect(selected, detailOf), proceed)
      case Ok(ps) => Loaded(ps)
      case Err(e) => Aborted(e)
  }

  method LoadProceduresFromInstance(listing: seq<PageResponse>, detailOf: string -> DetailResponse, proceed: bool)
    returns (outcome: LoadOutcome)
    ensures outcome == LoadFromInstance(listing, detailOf, proceed)
  {
    var paging, _ := GetAllPages(listing, []);
    match paging
    case Failed(e, _) => outcome := Aborted(e);
    case Unfinished(_) => outcome := StillPaging;
    case Complete(all, _) =>
      var selected := SelectCurated(all);
      var _, loaded := LoadDetails(selected, detailOf, proceed);
      outcome := if loaded.Ok? then Loaded(loaded.value) else Aborted(loaded.error);
  }

  /** A first listing response without its envelope ends the run with nothing loaded. */
  lemma MissingEnvelopeIsFatal(listing: seq<PageResponse>, detailOf: string -> DetailResponse, proceed: bool)
    requires |listing| > 0 && listing[0].MissingEnvelope?
    ensures LoadFromInstance(listing, detailOf, proceed) == Aborted(ListingEnvelopeMissing)
  {
  }

  /** An empty listing is never done with: the run pages on as long as the server answers. */
  lemma EmptyListingNeverLoads(listing: seq<PageResponse>, detailOf: string -> DetailResponse, proceed: bool)
    requires forall j :: 0 <= j < |listing| ==> listing[j].Page? && listing[j].items == []
    ensures LoadFromInstance(listing, detailOf, proceed) == StillPaging
  {
    EmptyListingNeverStops(listing);
  }

  /** A loaded run lost procedures only with the operator's consent. */
  lemma LoadedWithoutConsentIsComplete(listing: seq<PageResponse>, detailOf: string -> DetailResponse,
                                       all: seq<ProcedureSummary>, k: nat)
    requires Paginate(listing, Start([])) == Complete(all, k)
    requires LoadFromInstance(listing, detailOf, false).Loaded?
    ensures |LoadFromInstance(listing, detailOf, false).procedures| == |SelectCurated(all)|
    ensures forall i :: 0 <= i < |SelectCurated(all)| ==> detailOf(SelectCurated(all)[i].id).Detail?
  {
    CollectShortIffFailure(SelectCurated(all), detailOf);
  }

  /**
   * With a listing whose pages are consistent with its total and a detail
   * query that answers for every selected procedure, the run loads one
   * request per curated, non-editable procedure, in listing order.
   */
  lemma {:induction false} LoadsEveryCuratedProcedure(listing: seq<PageResponse>, chunks: seq<seq<ProcedureSummary>>,
                                                     detailOf: string -> DetailResponse, proceed: bool)
    requires Consistent(listing, chunks) && LastFilled(chunks) >= 0
    requires forall p :: p in SelectCurated(Flatten(chunks)) ==> detailOf(p.id).Detail?
    ensures var selected := SelectCurated(Flatten(chunks));
            var outcome := LoadFromInstance(listing, detailOf, proceed);
            outcome.Loaded? && |outcome.procedures| == |selected|
            && forall i :: 0 <= i < |selected| ==>
                 outcome.procedures[i] == Reshape(detailOf(selected[i].id).record)
  {
    ConsistentServerYieldsAll(listing, chunks);
    var selected := SelectCurated(Flatten(chunks));
    assert forall i :: 0 <= i < |selected| ==> selected[i] in selected;
    CollectAllFetched(selected, detailOf);
  }

  /**
   * End to end: when every detail query and every creation succeeds, the
   * destination holds, in order, one procedure per selected one, bound to
   * the destination, with its name, steps, techniques and tags as fetched.
   */
  lemma {:induction false} MigrationPreservesProcedures(listing: seq<PageResponse>, chunks: seq<seq<ProcedureSummary>>,
                                                       detailOf: string -> DetailResponse, proceed: bool,
                                                       repoId: string, replies: seq<SubmitReply>)
    requires Consistent(listing, chunks) && LastFilled(chunks) >= 0
    requires forall p :: p in SelectCurated(Flatten(chunks)) ==> detailOf(p.id).Detail?
    requires |replies| == |SelectCurated(Flatten(chunks))|
    requires forall i :: 0 <= i < |replies| ==> replies[i] == Accepted
    ensures var selected := SelectCurated(Flatten(chunks));
            var outcome := LoadFromInstance(listing, detailOf, proceed);
            outcome.Loaded? && |outcome.procedures| == |selected|
            && var held := Created(Rebind(outcome.procedures, repoId), replies);
            |held| == |selected|
            && forall i :: 0 <= i < |selected| ==>
                 var d := detailOf(selected[i].id).record;
                 held[i].data.repositoryId == repoId
                 && held[i].data.name == d.name && held[i].data.shortName == d.shortName
                 && held[i].data.description == d.description
                 && held[i].executionSteps == StepInputs(d.executionSteps)
                 && held[i].techniqueIds == TechniqueIds(d.techniques)
                 && held[i].tags == d.tags
  {
    LoadsEveryCuratedProcedure(listing, chunks, detailOf, proceed);
    var ps := LoadFromInstance(listing, detailOf, proceed).procedures;
    AllAccepted(Rebind(ps, repoId), replies);
  }
}
