/**
 * The records that flow through the migration: procedure summaries from the
 * listing query, full procedure records from the detail query, and the
 * creation requests built from them. Field names follow the platform's
 * GraphQL schema; a JSON `type` field is called `repoType` here because
 * `type` is a Dafny keyword.
 */
module Records {
  import opened Wrappers

  /** Why a run stops. Every `exit()` of the script becomes one of these. */
  datatype Fatal =
    | ListingEnvelopeMissing   // the listing response has no data.runbookProcedureListV2
    | ListingTotalMissing      // a non-empty page without meta.pagination.total (uncaught KeyError)
    | OperatorDeclined         // the operator refused to continue after a count mismatch
    | RepositoryIdMissing      // repository creation answered without data.runbookRepositoryCreateV2.id
    | RepositoryCreateRaised   // repository creation raised (transport error, null envelope)

  /** The owning repository as the listing query reports it. */
  datatype RepositoryRef = RepositoryRef(id: string, name: string, shortName: string, repoType: string)

  /** The owning repository as the detail query reports it (no type). */
  datatype RepositoryLink = RepositoryLink(id: string, name: string, shortName: string)

  /** A technique as the listing and detail queries report it (tactics and methodologies are not modelled). */
  datatype Technique = Technique(id: string, name: string, shortName: string)

  /** One row of the listing query. */
  datatype ProcedureSummary = ProcedureSummary(
    id: string,
    name: string,
    shortName: string,
    description: string,
    isEditable: bool,
    repository: RepositoryRef,
    techniques: seq<Technique>)

  /** A tag object as the detail query returns it. */
  datatype Tag = Tag(id: string, tag: string)

  /** An execution step as the detail query returns it; the success criterion may be null. */
  datatype WireStep = WireStep(id: string, description: string, successCriteria: Option<string>)

  /** The record returned by the detail query for one procedure. */
  datatype ProcedureDetail = ProcedureDetail(
    id: string,
    name: string,
    description: string,
    shortName: string,
    isEditable: bool,
    repository: RepositoryLink,
    tags: seq<Tag>,
    executionSteps: seq<WireStep>,
    techniques: seq<Technique>)

  /** An execution step as the creation mutation takes it. */
  datatype ExecutionStep = ExecutionStep(description: string, successCriteria: Option<string>)

  /** The `data` sub-record of a creation request. */
  datatype ProcedureInput = ProcedureInput(name: string, shortName: string, repositoryId: string, description: string)

  /** The variables of the procedure creation mutation. */
  datatype CreateRequest = CreateRequest(
    data: ProcedureInput,
    executionSteps: seq<ExecutionStep>,
    techniqueIds: seq<string>,
    tags: seq<Tag>)
}
