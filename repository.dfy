/**
 * Creation of the destination repository (create_new_repo): the request is
 * built from the operator's two answers, and the new repository's id is read
 * from data.runbookRepositoryCreateV2.id of the response. Without an id the
 * run cannot go on.
 */
module Repository {
  import opened Wrappers
  import opened Records

  const DuplicateDescription := "Duplicate of the default PlexTrac Curated repository."
  const OpenType := "open"

  /** The `data` variable of the repository creation mutation. */
  datatype RepositoryInput = RepositoryInput(name: string, shortName: string, description: string, repoType: string)

  /**
   * A member of a JSON object read with `.get(key, default)`: missing, present
   * and null, or present with a value.
   */
  datatype Member<T> = Absent | Null | Present(value: T)

  /**
   * The creation response. `Body(data)` holds the `data` member of the JSON
   * body; an object value of it is modelled by its `runbookRepositoryCreateV2`
   * member, whose object value is in turn modelled by its `id` member.
   */
  datatype CreateResponse =
    | CallRaised
    | Body(data: Member<Member<Member<string>>>)

  /**
   * The id or the reason the run ends. A missing member reads as an empty
   * object (or, for `id`, as None); a null `data` or
   * `runbookRepositoryCreateV2` makes the next `.get` raise.
   */
  function ExtractRepositoryId(response: CreateResponse): (r: Result<string, Fatal>)
    ensures r.Ok? <==> response.Body? && response.data.Present? && response.data.value.Present?
                       && response.data.value.value.Present?
    ensures r.Ok? ==> r.value == response.data.value.value.value
    ensures r.Err? ==> r.error in {RepositoryIdMissing, RepositoryCreateRaised}
  {
    match response
    case CallRaised => Err(RepositoryCreateRaised)
    case Body(data) =>
      match data
      case Null => Err(RepositoryCreateRaised)
      case Absent => Err(RepositoryIdMissing)
      case Present(created) =>
        match created
        case Null => Err(RepositoryCreateRaised)
        case Absent => Err(RepositoryIdMissing)
        case Present(id) =>
          if id.Present? then Ok(id.value) else Err(RepositoryIdMissing)
  }

  /** The request sent and what the run does with the answer. */
  method CreateNewRepository(name: string, prefix: string, response: CreateResponse)
    returns (input: RepositoryInput, id: Result<string, Fatal>)
    ensures input.name == name && input.shortName == prefix
    ensures input.description == DuplicateDescription && input.repoType == OpenType
    ensures id == ExtractRepositoryId(response)
  {
    input := RepositoryInput(name, prefix, DuplicateDescription, OpenType);
    id := ExtractRepositoryId(response);
  }
}
