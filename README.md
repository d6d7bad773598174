# Entrant record store, modelled in Dafny

The service stores *entrants*: a first name, a last name and a numeric id
that the service assigns. It offers four operations: list all, get by id,
create and delete. This project models its two core pieces and proves what they promise.

- **The store** (`EntrantDal`, module `Dals`, file `entrant_dal.dfy`). A class with the
  dictionary `entrantMap: map<int32, Entrant>` and the counter `lastId`, plus a
  ghost set `issued` holding every id that has been a key or has been handed out.
  `Valid()` says every key was issued and no issued id exceeds `lastId`.
  Each operation is a method whose contract gives the new map and counter exactly.
  Failures are returned as `Outcome` values (`Threw(exn)`); they are not exceptions.
- **The request handler** (`EntrantController`, module `Controllers`, file `entrant_controller.dfy`).
  Each action is a total function from the store's outcome to a `Response`.
  `StatusOf` gives a response's HTTP status code.
- **Wiring** (module `Service`, file `service.dfy`). Startup registers one `EntrantDal` as the
  controller's store. These methods run each action against that concrete store.
  Their contracts give the end-to-end behaviour, for example that GET by id never answers 500.
  The file also holds a scenario run on the store as `Startup.cs` seeds it, and two client methods.
- `text.dfy` holds `string.IsNullOrWhiteSpace`, with .NET's `char.IsWhiteSpace` set written out.
  `nullable.dfy` holds `Option`, which stands for a C# reference that may be null.
  `models.dfy` holds the record, C#'s `int` as `int32`, the exceptions and `Interlocked.Increment`.
  Increment wraps from `int.MaxValue` to `int.MinValue`.

C# `null` is `None`, for the entrant, for its names and for the seed dictionary.

Where the code and its tests or documentation disagree, the model follows the code:

- `Create(null)` in the controller dereferences the null entrant before any check.
  The `NullReferenceException` reaches the generic handler, so the answer is 500.
  The controller test expects 400.
- A blank name makes the controller answer 400 carrying the blank *value* itself
  (null, `""`, `" "`), not the field name.
  Only a store `ArgumentException` makes it answer with a parameter name.
- `ArgumentNullException` is an `ArgumentException`.
  So a store that throws `ArgumentNullException` is answered 400 with its parameter name.
  The concrete store throws it only for a null entrant, which this controller never passes to it.
- Ids are only as positive as the seed map makes them.
  The counter starts at the largest seeded key, which may be negative.
  Once the counter reaches `int.MaxValue`, the next Create wraps it to `int.MinValue`.
  From then on the collision branch ("Create new Entrant failed") is reachable.
  While the counter is below `int.MaxValue`, Create keeps `Valid()` and that branch cannot fire.

## Model

| member | source | states |
|---|---|---|
| Text.IsWhiteSpace | Entrant/Entrant/Dals/EntrantDal.cs:61 | char.IsWhiteSpace, as used by the blank tests at EntrantDal.cs:61,66 and EntrantController.cs:108,113: the ranges accept exactly the 25 listed white-space code points |
| Text.IsNullOrWhiteSpace | Entrant/Entrant/Dals/EntrantDal.cs:61-68 | string.IsNullOrWhiteSpace, the blank-name test of the store (lines 61, 66) and of the controller (EntrantController.cs:108, 113): the scan is true exactly for null or a string all of whose characters are white space |
| Models.IsArgumentException | Entrant/Entrant/Controllers/EntrantController.cs:122 | definition, no contract: `catch (ArgumentException)` catches exactly the exceptions that are neither EntrantNotFoundException nor a generic Exception, so ArgumentNullException is among them |
| Controllers.StatusOf | Entrant/Entrant/Controllers/EntrantController.cs:48-53 | definition, no contract: each result class carries its status code: Ok 200, CreatedAtAction 201, BadRequest 400, NotFound 404, and StatusCodeResult its own code (500 here) |
| Models.Increment | Entrant/Entrant/Dals/EntrantDal.cs:71 | the result is x + 1 reduced mod 2^32 into the int range (two's-complement wrap); below int.MaxValue it is larger than x |
| Dals.LargestExists | Entrant/Entrant/Dals/EntrantDal.cs:40 | every non-empty set of ids has a largest element, so Keys.Max() is defined |
| Dals.MaxKey | Entrant/Entrant/Dals/EntrantDal.cs:40 | Keys.Max(): the result is a key and no key exceeds it |
| Dals.ListedIdsAreKeys | Entrant/Entrant/Dals/EntrantDal.cs:121 | if every entrant is stored under its own id, the ids of a GetAll listing are exactly the keys |
| Dals.EntrantDal.constructor | Entrant/Entrant/Dals/EntrantDal.cs:34-46 | takes the seed map, or an empty one for null; lastId is 0 for an empty map, otherwise a key at least as large as every key; Valid() holds |
| Dals.EntrantDal.TryAdd | Entrant/Entrant/Dals/EntrantDal.cs:73 | inserts exactly when the key is absent, otherwise leaves the map as it was |
| Dals.EntrantDal.TryGetValue | Entrant/Entrant/Dals/EntrantDal.cs:98 | finds a value exactly when the key is present, and it is the stored one |
| Dals.EntrantDal.TryRemove | Entrant/Entrant/Dals/EntrantDal.cs:100 | reports success exactly when the key was present; the key is gone afterwards |
| Dals.EntrantDal.Create | Entrant/Entrant/Dals/EntrantDal.cs:54-85 | null gives ArgumentNull("entrant"), a blank FirstName gives Argument("FirstName") and then a blank LastName gives Argument("LastName"), each leaving map, counter and issued ids unchanged; otherwise the counter is incremented (with wrap), and the candidate carrying the new id is added under exactly that key and returned, or on a collision the map is unchanged and the insert failure is raised; while Valid() holds and the counter is below int.MaxValue, Valid() is preserved, only argument errors can occur, and the new id is old lastId + 1 and was never issued before |
| Dals.EntrantDal.Delete | Entrant/Entrant/Dals/EntrantDal.cs:92-113 | succeeds exactly when the id is present, then removes exactly that key; an absent id gives EntrantNotFound(id) with the map unchanged; lastId and the issued ids never change, and Valid() is preserved |
| Dals.EntrantDal.GetAll | Entrant/Entrant/Dals/EntrantDal.cs:119-122 | returns each stored entrant once per key, as many as there are keys, empty exactly when the map is empty; state is unchanged |
| Dals.EntrantDal.GetById | Entrant/Entrant/Dals/EntrantDal.cs:130-142 | returns the stored entrant exactly when the id is present, otherwise EntrantNotFound(id); state is unchanged |
| Controllers.GetAll | Entrant/Entrant/Controllers/EntrantController.cs:41-59 | 200 carrying the store's list exactly when the store returned, 500 exactly when it threw |
| Controllers.GetById | Entrant/Entrant/Controllers/EntrantController.cs:70-93 | 200 with the entrant exactly when the store returned, 404 carrying the requested id exactly on EntrantNotFound, 500 exactly on any other exception |
| Controllers.CreatePrecheck | Entrant/Entrant/Controllers/EntrantController.cs:106-116 | the store is called exactly when the entrant is non-null with both names non-blank; null gives 500; a blank FirstName gives 400 with that value, then a blank LastName gives 400 with that value |
| Controllers.CreateResult | Entrant/Entrant/Controllers/EntrantController.cs:118-129 | 201 pointing at GetById with the new entrant's id exactly when the store returned; 400 with the parameter name exactly on an ArgumentException (including ArgumentNullException); 500 exactly on anything else |
| Controllers.Create | Entrant/Entrant/Controllers/EntrantController.cs:102-135 | 201 exactly for valid names and a store success; 400 exactly for a blank name, or for valid names and a store argument error; 500 exactly for a null entrant, or for valid names and any other store exception |
| Controllers.CreateRejectsWithoutStore | Entrant/Entrant/Controllers/EntrantController.cs:108-116 | for a rejected candidate the response does not depend on the store's answer; for a non-null one it is 400 with the first blank name's value |
| Controllers.Delete | Entrant/Entrant/Controllers/EntrantController.cs:143-166 | an empty 200 exactly when the store returned, 404 carrying the requested id exactly on EntrantNotFound, 500 exactly on any other exception |
| Service.HandleGetAll | Entrant/Entrant/Controllers/EntrantController.cs:45-48 | with the concrete store, always 200 carrying every stored entrant once per key |
| Service.HandleGetById | Entrant/Entrant/Controllers/EntrantController.cs:74-83 | with the concrete store, 200 with the stored entrant when the id is present, otherwise 404 with the id; never 500 |
| Service.HandleCreate | Entrant/Entrant/Controllers/EntrantController.cs:106-120 | with the concrete store, a rejected candidate is answered by the checks and leaves map, counter and issued ids unchanged; an accepted one adds its new id to the issued ids; an accepted one, while Valid() holds and the counter is below int.MaxValue, is stored under old lastId + 1, an id never issued before, and the answer is 201 with that id |
| Service.HandleDelete | Entrant/Entrant/Controllers/EntrantController.cs:147-156 | with the concrete store, an empty 200 after removing a present id, otherwise 404 with the id and the map unchanged; the counter and issued ids are untouched |
| Service.CreateThenGet | Entrant/Entrant/Dals/EntrantDal.cs:71-84 | a successful Create followed by GetById of the returned id gives back exactly the returned entrant |
| Service.DeleteThenCreate | Entrant/Entrant/Dals/EntrantDal.cs:92-113 | deleting a present id succeeds; after it, GetById of that id is NotFound and the next Create hands out a different id |
| Service.StartupSeed | Entrant/Entrant/Startup.cs:30-34 | the seed map holds keys 1 and 2, each entrant stored under its own id |
| Service.NewSeededStore | Entrant/Entrant/Startup.cs:36 | a store built from the seed holds exactly the seed, satisfies Valid(), and starts its counter at 2 |
| Service.SeededStoreScenario | Entrant/Entrant/Dals/EntrantDal.cs:54-122 | a scenario over the store as Startup.cs seeds it (entrants 1 and 2): Create gives id 3, Delete(1) succeeds, the next Create gives id 4 (1 is not reused), and GetAll lists ids {2, 3, 4} |

## Left out

- Concurrency: `ConcurrentDictionary` and the atomicity of `Interlocked.Increment` are not modelled. Each operation is one atomic step on a sequential store.
- Object identity and aliasing. Entrants are values. The source writes the new id into the caller's `Entrant` object, even when the insert then fails. The stored record and the caller's object are the same reference, and the seed dictionary is shared with whoever passed it in. The model returns the stored copy instead.
- Logging (log4net) has no semantic effect and is omitted. The messages of ArgumentException, ArgumentNullException and EntrantNotFoundException are omitted, since no caller reads them. Their exception kinds, parameter names and ids are kept, as is the text "Create new Entrant failed".
- The ASP.NET plumbing is abstracted to the `Response` datatype: route attributes, model binding, serialization, and the anonymous route-value object of `CreatedAtAction`.
- `IEntrantDal` is an interface, which this model does not declare as a type. The controller functions instead take the store's outcome as a parameter, so any implementation that returns a non-null result or throws is covered. The concrete implementation is wired in by `Service`.
- Store results are never null in this model. `Outcome.Returned` cannot carry null. A store whose `Create` returns null makes the controller read `newEntrant.Id` (EntrantController.cs:120), and the resulting NullReferenceException is answered with 500. The model would answer 201 instead. A null from `GetById` or `GetAll` would be answered with `Ok(null)`, which the model cannot express.
- The controller constructor's fallback to a new `EntrantDal` when given a null store is DI wiring, not behaviour.
- Startup's DI and HTTP pipeline set-up; only its seed map `{1, 2}` is used, in `Service.SeededStoreScenario`.
- The file declaring `EntrantNotFoundException` is not part of this model. The exception itself is modelled as `EntrantNotFound(id)`, and it is taken to derive from `Exception` only, not from `ArgumentException`. So in Create, a store that throws it gets 500.
- The order of `GetAll`'s list: the dictionary promises no order, and the model walks the keys in an unspecified order. The loop stands for `Values.ToList()`, which has no single Dafny counterpart.
- The NUnit test projects are not modelled.
