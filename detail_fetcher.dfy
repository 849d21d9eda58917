/**
 * The detail stage of load_procedures_from_instance: one detail query per
 * selected procedure, in order; each record that comes back is reshaped into
 * the creation request, and every item whose query fails is skipped. When
 * fewer requests than procedures result, the operator decides whether the
 * run goes on.
 */
module DetailFetcher {
  import opened Wrappers
  import opened Records

  /** The answer to one detail query. */
  datatype DetailResponse =
    | Raised                           // the call or the reading of data.runbookProcedureV2 raised
    | NotJson                          // has_json_response is false
    | Detail(record: ProcedureDetail)  // data.runbookProcedureV2

  function StepInput(s: WireStep): ExecutionStep
  {
    ExecutionStep(s.description, s.successCriteria)
  }

  function StepInputs(steps: seq<WireStep>): seq<ExecutionStep>
  {
    seq(|steps|, i requires 0 <= i < |steps| => StepInput(steps[i]))
  }

  function TechniqueIds(ts: seq<Technique>): seq<string>
  {
    seq(|ts|, i requires 0 <= i < |ts| => ts[i].id)
  }

  /**
   * The reshape of a detail record into a creation request: the server's id
   * and editable flag are dropped, the repository becomes its id, steps keep
   * only their description and success criterion, techniques become their
   * ids, tags are passed on as they came.
   */
  function Reshape(d: ProcedureDetail): (r: CreateRequest)
    ensures r.data.name == d.name && r.data.shortName == d.shortName && r.data.description == d.description
    ensures r.data.repositoryId == d.repository.id
    ensures |r.executionSteps| == |d.executionSteps|
    ensures forall i :: 0 <= i < |d.executionSteps| ==>
              r.executionSteps[i].description == d.executionSteps[i].description
              && r.executionSteps[i].successCriteria == d.executionSteps[i].successCriteria
    ensures |r.techniqueIds| == |d.techniques|
    ensures forall i :: 0 <= i < |d.techniques| ==> r.techniqueIds[i] == d.techniques[i].id
    ensures r.tags == d.tags
  {
    CreateRequest(
      ProcedureInput(d.name, d.shortName, d.repository.id, d.description),
      StepInputs(d.executionSteps),
      TechniqueIds(d.techniques),
      d.tags)
  }

  /** Two records that differ only in what the reshape drops give the same request. */
  lemma ReshapeIgnoresDroppedFields(d1: ProcedureDetail, d2: ProcedureDetail)
    requires d1.name == d2.name && d1.shortName == d2.shortName && d1.description == d2.description
    requires d1.repository.id == d2.repository.id && d1.tags == d2.tags
    requires |d1.executionSteps| == |d2.executionSteps|
    requires forall i :: 0 <= i < |d1.executionSteps| ==>
               StepInput(d1.executionSteps[i]) == StepInput(d2.executionSteps[i])
    requires TechniqueIds(d1.techniques) == TechniqueIds(d2.techniques)
    ensures Reshape(d1) == Reshape(d2)
  {
  }

  /** What the detail loop appends for one selected procedure. */
  function Fetched(p: ProcedureSummary, detailOf: string -> DetailResponse): seq<CreateRequest>
  {
    match detailOf(p.id)
    case Detail(d) => [Reshape(d)]
    case _ => []
  }

  /** The requests the detail loop has built after the given procedures. */
  function Collect(selected: seq<ProcedureSummary>, detailOf: string -> DetailResponse): (r: seq<CreateRequest>)
    ensures |r| <= |selected|
  {
    if selected == [] then []
    else Collect(selected[..|selected| - 1], detailOf) + Fetched(selected[|selected| - 1], detailOf)
  }

  /** The prompt after the loop: a shortfall ends the run unless the operator goes on. */
  function ConfirmLoaded(expected: nat, procedures: seq<CreateRequest>, proceed: bool)
    : (r: Result<seq<CreateRequest>, Fatal>)
    ensures r.Ok? <==> |procedures| == expected || proceed
    ensures r.Ok? ==> r.value == procedures
    ensures r.Err? ==> r.error == OperatorDeclined
  {
    if |procedures| != expected && !proceed then Err(OperatorDeclined) else Ok(procedures)
  }

  /**
   * The loop over the selected procedures. `detailOf` answers the detail query
   * for an id; `proceed` is the operator's answer to the shortfall prompt.
   */
  method LoadDetails(selected: seq<ProcedureSummary>, detailOf: string -> DetailResponse, proceed: bool)
    returns (requested: seq<string>, result: Result<seq<CreateRequest>, Fatal>)
    ensures |requested| == |selected|
    ensures forall i :: 0 <= i < |selected| ==> requested[i] == selected[i].id
    ensures result == ConfirmLoaded(|selected|, Collect(selected, detailOf), proceed)
  {
    var procedures: seq<CreateRequest> := [];
    requested := [];
    for i := 0 to |selected|
      invariant |requested| == i
      invariant forall j :: 0 <= j < i ==> requested[j] == selected[j].id
      invariant procedures == Collect(selected[..i], detailOf)
    {
      var procedure := selected[i];
      requested := requested + [procedure.id];
      var response := detailOf(procedure.id);
      if response.Detail? {
        procedures := procedures + [Reshape(response.record)];
      }
      assert selected[..i + 1][..i] == selected[..i];
    }
    assert selected[..|selected|] == selected;
    if |selected| != |procedures| && !proceed {
      return requested, Err(OperatorDeclined);
    }
    result := Ok(procedures);
  }

  // ---------------------------------------------------------------------
  // Properties of the loop's result
  // ---------------------------------------------------------------------

  /** Items are handled one after the other: the loop over a + b is the loop over a, then over b. */
  lemma {:induction false} CollectAppend(a: seq<ProcedureSummary>, b: seq<ProcedureSummary>, detailOf: string -> DetailResponse)
    ensures Collect(a + b, detailOf) == Collect(a, detailOf) + Collect(b, detailOf)
    decreases |b|
  {
    if b == [] {
      assert a + b == a;
    } else {
      var last := |b| - 1;
      assert (a + b)[..|a + b| - 1] == a + b[..last];
      assert (a + b)[|a + b| - 1] == b[last];
      CollectAppend(a, b[..last], detailOf);
    }
  }

  /** A failed item is skipped without disturbing the items before and after it. */
  lemma {:induction false} SkipsFailedItem(a: seq<ProcedureSummary>, p: ProcedureSummary, b: seq<ProcedureSummary>,
                                           detailOf: string -> DetailResponse)
    requires !detailOf(p.id).Detail?
    ensures Collect(a + [p] + b, detailOf) == Collect(a, detailOf) + Collect(b, detailOf)
  {
    var one := Collect([p], detailOf);
    assert one == [] by {
      assert [p][..0] == [];
      assert Fetched(p, detailOf) == [];
    }
    CollectAppend(a, [p], detailOf);
    assert Collect(a + [p], detailOf) == Collect(a, detailOf);
    CollectAppend(a + [p], b, detailOf);
  }

  /** When every detail query succeeds, the i-th request is the reshape of the i-th procedure's record. */
  lemma {:induction false} CollectAllFetched(selected: seq<ProcedureSummary>, detailOf: string -> DetailResponse)
    requires forall i :: 0 <= i < |selected| ==> detailOf(selected[i].id).Detail?
    ensures |Collect(selected, detailOf)| == |selected|
    ensures forall i :: 0 <= i < |selected| ==>
              Collect(selected, detailOf)[i] == Reshape(detailOf(selected[i].id).record)
    decreases |selected|
  {
    if selected != [] {
      var init := selected[..|selected| - 1];
      CollectAllFetched(init, detailOf);
    }
  }

  /** The loop comes up short exactly when some item's detail query fails. */
  lemma {:induction false} CollectShortIffFailure(selected: seq<ProcedureSummary>, detailOf: string -> DetailResponse)
    ensures |Collect(selected, detailOf)| < |selected|
            <==> exists i :: 0 <= i < |selected| && !detailOf(selected[i].id).Detail?
    decreases |selected|
  {
    if selected != [] {
      var init := selected[..|selected| - 1];
      CollectShortIffFailure(init, detailOf);
      if exists i :: 0 <= i < |init| && !detailOf(init[i].id).Detail? {
        var i :| 0 <= i < |init| && !detailOf(init[i].id).Detail?;
        assert selected[i] == init[i];
      }
      if exists i :: 0 <= i < |selected| && !detailOf(selected[i].id).Detail? {
        var i :| 0 <= i < |selected| && !detailOf(selected[i].id).Detail?;
        if i < |init| {
          assert init[i] == selected[i];
        }
      }
    }
  }

  /** Every request comes from the record of a selected procedure whose detail query succeeded. */
  lemma {:induction false} CollectProvenance(selected: seq<ProcedureSummary>, detailOf: string -> DetailResponse, q: CreateRequest)
    requires q in Collect(selected, detailOf)
    ensures exists i :: 0 <= i < |selected| && detailOf(selected[i].id).Detail?
                        && q == Reshape(detailOf(selected[i].id).record)
    decreases |selected|
  {
    var init := selected[..|selected| - 1];
    var last := selected[|selected| - 1];
    if q in Collect(init, detailOf) {
      CollectProvenance(init, detailOf, q);
      var i :| 0 <= i < |init| && detailOf(init[i].id).Detail? && q == Reshape(detailOf(init[i].id).record);
      assert selected[i] == init[i];
    } else {
      assert q in Fetched(last, detailOf);
      assert selected[|selected| - 1] == last;
    }
  }
}
