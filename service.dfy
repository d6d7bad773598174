/**
 The controller's actions run against the concrete store (Startup.cs
 registers one EntrantDal as the controller's IEntrantDal). Each method calls
 the store the way the action does and maps the outcome with the
 controller's function; the contracts say what a client observes end to end.
 */
module Service {
  import opened Nullable
  import opened Text
  import opened Models
  import opened Dals
  import Controllers

  /** GET /entrant never fails: 200 with every stored entrant, one per key. */
  method HandleGetAll(dal: EntrantDal) returns (resp: Controllers.Response)
    ensures resp.Ok? && resp.body.EntrantList?
    ensures exists ks :: Enumerates(dal.entrantMap, resp.body.entrants, ks)
  {
    var es, ks := dal.GetAll();
    resp := Controllers.GetAll(Returned(es));
  }

  /** GET /entrant/{id}: 200 with the stored entrant, otherwise 404; never 500. */
  method HandleGetById(dal: EntrantDal, id: int32) returns (resp: Controllers.Response)
    ensures id in dal.entrantMap ==> resp == Controllers.Ok(Controllers.OneEntrant(dal.entrantMap[id]))
    ensures id !in dal.entrantMap ==> resp == Controllers.NotFound(id)
  {
    var found := dal.GetById(id);
    resp := Controllers.GetById(id, found);
  }

  /** POST /entrant. Rejected candidates never reach the store; an accepted
      one is stored under the next id, and while the counter is below
      int.MaxValue the answer is always 201: the store's own argument checks
      and its failed-insert branch cannot fire. */
  method HandleCreate(dal: EntrantDal, candidate: Option<Entrant>) returns (resp: Controllers.Response)
    modifies dal
    ensures !HasNames(candidate) ==>
              && resp == Controllers.CreatePrecheck(candidate).value
              && dal.entrantMap == old(dal.entrantMap) && dal.lastId == old(dal.lastId)
              && dal.issued == old(dal.issued)
    ensures HasNames(candidate) ==> dal.issued == old(dal.issued) + {dal.lastId}
    ensures old(dal.Valid()) && old(dal.lastId) < MaxInt32 && HasNames(candidate) ==>
              && dal.Valid()
              && dal.lastId as int == old(dal.lastId) as int + 1
              && dal.lastId !in old(dal.issued)
              && resp == Controllers.CreatedAt("GetById", dal.lastId, candidate.value.(id := dal.lastId))
              && dal.entrantMap == old(dal.entrantMap)[dal.lastId := candidate.value.(id := dal.lastId)]
  {
    var early := Controllers.CreatePrecheck(candidate);
    if early.Some? {
      return early.value;
    }
    var created := dal.Create(candidate);
    resp := Controllers.CreateResult(created);
  }

  /** DELETE /entrant/{id}: an empty 200 after removing the entrant, otherwise
      404 with nothing changed; the counter never moves back. */
  method HandleDelete(dal: EntrantDal, id: int32) returns (resp: Controllers.Response)
    modifies dal
    ensures resp == if id in old(dal.entrantMap) then Controllers.Ok(Controllers.NoValue) else Controllers.NotFound(id)
    ensures dal.entrantMap == old(dal.entrantMap) - {id}
    ensures dal.lastId == old(dal.lastId) && dal.issued == old(dal.issued)
    ensures old(dal.Valid()) ==> dal.Valid()
  {
    var deleted := dal.Delete(id);
    resp := Controllers.Delete(id, deleted);
  }

  /** Reading back a freshly created entrant by its id gives the record Create returned. */
  method CreateThenGet(dal: EntrantDal, candidate: Option<Entrant>) returns (created: Outcome<Entrant>, read: Outcome<Entrant>)
    requires dal.Valid() && dal.lastId < MaxInt32 && HasNames(candidate)
    modifies dal
    ensures created.Returned? && read == created
  {
    created := dal.Create(candidate);
    read := dal.GetById(created.value.id);
  }

  /** After deleting a stored id, it is not found, and the next Create hands out a different id. */
  method DeleteThenCreate(dal: EntrantDal, id: int32, candidate: Option<Entrant>)
    returns (gone: Outcome<()>, created: Outcome<Entrant>, read: Outcome<Entrant>)
    requires dal.Valid() && dal.lastId < MaxInt32 && HasNames(candidate)
    modifies dal
    ensures gone.Returned? <==> id in old(dal.entrantMap)
    ensures created.Returned?
    ensures gone.Returned? ==> created.value.id != id && read == Threw(EntrantNotFound(id))
  {
    gone := dal.Delete(id);
    created := dal.Create(candidate);
    read := dal.GetById(id);
  }

  /** The two entrants Startup.cs seeds the store with. */
  function StartupSeed(): (m: map<int32, Entrant>)
    ensures m.Keys == {1, 2} && forall k :: k in m ==> m[k].id == k
  {
    map[1 := Entrant(1, Some("First1"), Some("Last1")), 2 := Entrant(2, Some("First2"), Some("Last2"))]
  }

  /** A store built from the Startup seed starts its counter at 2. */
  method NewSeededStore() returns (dal: EntrantDal)
    ensures fresh(dal) && dal.Valid()
    ensures dal.entrantMap == StartupSeed() && dal.lastId == 2
  {
    dal := new EntrantDal(Some(StartupSeed()));
    assert 2 in dal.entrantMap && dal.lastId in {1, 2};
  }

  /** Create with two names that start with a visible character stores them under the next id. */
  method CreateNamed(dal: EntrantDal, first: string, last: string) returns (r: Outcome<Entrant>)
    requires dal.Valid() && dal.lastId < MaxInt32
    requires |first| > 0 && !IsWhiteSpace(first[0]) && |last| > 0 && !IsWhiteSpace(last[0])
    modifies dal
    ensures dal.Valid() && dal.lastId as int == old(dal.lastId) as int + 1
    ensures r == Returned(Entrant(dal.lastId, Some(first), Some(last)))
    ensures dal.entrantMap == old(dal.entrantMap)[dal.lastId := r.value]
  {
    VisibleFirstIsNotBlank(first);
    VisibleFirstIsNotBlank(last);
    r := dal.Create(Some(Entrant(0, Some(first), Some(last))));
  }

  /** The store as Startup.cs seeds it (entrants 1 and 2): creating two more
      gives ids 3 and 4, and deleting 1 in between does not free id 1, so the
      store ends with ids 2, 3 and 4. */
  method SeededStoreScenario()
    returns (third: Outcome<Entrant>, gone: Outcome<()>, fourth: Outcome<Entrant>, remaining: set<int32>)
    ensures third.Returned? && third.value.id == 3
    ensures gone == Returned(())
    ensures fourth.Returned? && fourth.value.id == 4
    ensures remaining == {2, 3, 4}
  {
    var dal := NewSeededStore();
    third := CreateNamed(dal, "First3", "Last3");
    gone := dal.Delete(1);
    fourth := CreateNamed(dal, "First4", "Last4");
    assert dal.entrantMap.Keys == {2, 3, 4};
    var listed, ks := dal.GetAll();
    ListedIdsAreKeys(dal.entrantMap, listed, ks);
    remaining := set e | e in listed :: e.id;
  }
}
