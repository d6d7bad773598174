/**
 The request handler (Controllers/EntrantController.cs). It owns no state:
 each action turns what the store did (a value or an exception) into a
 response. The store is whatever implementation the controller was given,
 so every action takes the store's outcome as a parameter.
 */
module Controllers {
  import opened Nullable
  import opened Text
  import opened Models

  /** StatusCodes.Status500InternalServerError */
  const Status500InternalServerError: int := 500

  /** The payload of an Ok response: none (OkResult), one entrant, or a list. */
  datatype Body = NoValue | OneEntrant(entrant: Entrant) | EntrantList(entrants: seq<Entrant>)

  /** The action results the controller produces. */
  datatype Response =
    | Ok(body: Body)                                         // OkResult / OkObjectResult
    | CreatedAt(actionName: string, routeId: int32, value: Entrant)  // CreatedAtActionResult
    | BadRequest(error: Option<string>)                      // BadRequestObjectResult
    | NotFound(id: int32)                                    // NotFoundObjectResult
    | StatusCode(code: int)                                  // StatusCodeResult

  /** The HTTP status code each result carries. */
  function StatusOf(resp: Response): int
  {
    match resp
    case Ok(_) => 200
    case CreatedAt(_, _, _) => 201
    case BadRequest(_) => 400
    case NotFound(_) => 404
    case StatusCode(c) => c
  }

  /** GET /entrant: the store's list, or 500 if the store threw. */
  function GetAll(store: Outcome<seq<Entrant>>): (r: Response)
    ensures StatusOf(r) == 200 <==> store.Returned?
    ensures StatusOf(r) == 500 <==> store.Threw?
    ensures store.Returned? ==> r.Ok? && r.body == EntrantList(store.value)
  {
    match store
    case Returned(entrants) => Ok(EntrantList(entrants))
    case Threw(_) => StatusCode(Status500InternalServerError)
  }

  /** GET /entrant/{id}: the entrant, 404 carrying the requested id, or 500. */
  function GetById(id: int32, store: Outcome<Entrant>): (r: Response)
    ensures StatusOf(r) == 200 <==> store.Returned?
    ensures StatusOf(r) == 404 <==> store.Threw? && store.exn.EntrantNotFound?
    ensures StatusOf(r) == 500 <==> store.Threw? && !store.exn.EntrantNotFound?
    ensures store.Returned? ==> r == Ok(OneEntrant(store.value))
    ensures StatusOf(r) == 404 ==> r == NotFound(id)
  {
    match store
    case Returned(entrant) => Ok(OneEntrant(entrant))
    case Threw(EntrantNotFound(_)) => NotFound(id)
    case Threw(_) => StatusCode(Status500InternalServerError)
  }

  /** The checks before the store is called. A null entrant is dereferenced,
      and the resulting NullReferenceException reaches the generic handler.
      A blank name answers with the blank value itself. None: call the store. */
  function CreatePrecheck(candidate: Option<Entrant>): (r: Option<Response>)
    ensures r.None? <==> HasNames(candidate)
    ensures candidate.None? ==> r == Some(StatusCode(Status500InternalServerError))
    ensures candidate.Some? && r.Some? ==> StatusOf(r.value) == 400
    ensures candidate.Some? && IsNullOrWhiteSpace(candidate.value.firstName) ==>
              r == Some(BadRequest(candidate.value.firstName))
    ensures candidate.Some? && !IsNullOrWhiteSpace(candidate.value.firstName) && IsNullOrWhiteSpace(candidate.value.lastName) ==>
              r == Some(BadRequest(candidate.value.lastName))
  {
    match candidate
    case None => Some(StatusCode(Status500InternalServerError))
    case Some(entrant) =>
      if IsNullOrWhiteSpace(entrant.firstName) then Some(BadRequest(entrant.firstName))
      else if IsNullOrWhiteSpace(entrant.lastName) then Some(BadRequest(entrant.lastName))
      else None
  }

  /** How the store's answer to Create becomes a response: 201 pointing at
      GetById with the new id, 400 with the parameter name of an argument
      error, 500 for anything else. */
  function CreateResult(store: Outcome<Entrant>): (r: Response)
    ensures StatusOf(r) == 201 <==> store.Returned?
    ensures StatusOf(r) == 400 <==> store.Threw? && IsArgumentException(store.exn)
    ensures StatusOf(r) == 500 <==> store.Threw? && !IsArgumentException(store.exn)
    ensures store.Returned? ==> r == CreatedAt("GetById", store.value.id, store.value)
    ensures store.Threw? && IsArgumentException(store.exn) ==> r == BadRequest(store.exn.paramName)
  {
    match store
    case Returned(created) => CreatedAt("GetById", created.id, created)
    case Threw(e) =>
      if IsArgumentException(e) then BadRequest(e.paramName)
      else StatusCode(Status500InternalServerError)
  }

  /** POST /entrant. `store` is what the store's Create would answer; it is
      consulted only when the candidate passes the checks. */
  function Create(candidate: Option<Entrant>, store: Outcome<Entrant>): (r: Response)
    ensures StatusOf(r) == 201 <==> HasNames(candidate) && store.Returned?
    ensures StatusOf(r) == 400 <==>
              || (candidate.Some? && !HasNames(candidate))
              || (HasNames(candidate) && store.Threw? && IsArgumentException(store.exn))
    ensures StatusOf(r) == 500 <==>
              || candidate.None?
              || (HasNames(candidate) && store.Threw? && !IsArgumentException(store.exn))
  {
    match CreatePrecheck(candidate)
    case Some(early) => early
    case None => CreateResult(store)
  }

  /** DELETE /entrant/{id}: an empty 200, 404 carrying the requested id, or 500. */
  function Delete(id: int32, store: Outcome<()>): (r: Response)
    ensures StatusOf(r) == 200 <==> store.Returned?
    ensures StatusOf(r) == 404 <==> store.Threw? && store.exn.EntrantNotFound?
    ensures StatusOf(r) == 500 <==> store.Threw? && !store.exn.EntrantNotFound?
    ensures store.Returned? ==> r == Ok(NoValue)
    ensures StatusOf(r) == 404 ==> r == NotFound(id)
  {
    match store
    case Returned(_) => Ok(NoValue)
    case Threw(EntrantNotFound(_)) => NotFound(id)
    case Threw(_) => StatusCode(Status500InternalServerError)
  }

  /** A candidate the checks reject is answered without the store: the
      response is the same whatever the store would have answered. */
  lemma CreateRejectsWithoutStore(candidate: Option<Entrant>, store: Outcome<Entrant>, other: Outcome<Entrant>)
    requires !HasNames(candidate)
    ensures Create(candidate, store) == Create(candidate, other)
    ensures candidate.Some? ==>
              var blank := if IsNullOrWhiteSpace(candidate.value.firstName) then candidate.value.firstName else candidate.value.lastName;
              Create(candidate, store) == BadRequest(blank)
  {
  }
}
