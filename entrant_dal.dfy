/**
 The in-memory entrant store (Dals/EntrantDal.cs): a dictionary from id to
 entrant and the last id handed out. Each operation is one atomic step; the
 C# type's thread safety is not modelled.
 */
module Dals {
  import opened Nullable
  import opened Text
  import opened Models

  /** `m` is the largest element of `s`. */
  predicate IsLargest(m: int32, s: set<int32>)
  {
    m in s && forall k :: k in s ==> k <= m
  }

  /** Every non-empty finite set of ids has a largest element. */
  lemma {:induction false} LargestExists(s: set<int32>)
    requires s != {}
    ensures exists m :: IsLargest(m, s)
  {
    var x :| x in s;
    if s == {x} {
      assert IsLargest(x, s);
    } else {
      LargestExists(s - {x});
      var m :| IsLargest(m, s - {x});
      var top := if x <= m then m else x;
      forall k | k in s
        ensures k <= top
      {
        if k != x {
          assert k in s - {x};
        }
      }
      assert IsLargest(top, s);
    }
  }

  /** Keys.Max(): the largest key of a non-empty key set. */
  function MaxKey(s: set<int32>): (m: int32)
    requires s != {}
    ensures m in s
    ensures forall k :: k in s ==> k <= m
  {
    LargestExists(s);
    var m :| IsLargest(m, s);
    m
  }

  /** `es` lists the values of `m`, one per key, in the key order `ks`. */
  ghost predicate Enumerates(m: map<int32, Entrant>, es: seq<Entrant>, ks: seq<int32>)
  {
    && |ks| == |es| == |m|
    && (forall i :: 0 <= i < |ks| ==> ks[i] in m && es[i] == m[ks[i]])
    && (forall i, j :: 0 <= i < j < |ks| ==> ks[i] != ks[j])
    && (forall k :: k in m ==> k in ks)
  }

  /** When every entrant is stored under its own id, the ids in a listing of
      the map are exactly its keys. */
  lemma ListedIdsAreKeys(m: map<int32, Entrant>, es: seq<Entrant>, ks: seq<int32>)
    requires Enumerates(m, es, ks)
    requires forall k :: k in m ==> m[k].id == k
    ensures (set e | e in es :: e.id) == m.Keys
  {
  }

  class EntrantDal {
    /** _entrantMap */
    var entrantMap: map<int32, Entrant>
    /** _lastId: the id of the last entrant created */
    var lastId: int32
    /** Every id that has been a key of the map or has been handed out by Create. */
    ghost var issued: set<int32>

    /** Every key present was issued, and no issued id exceeds the counter. */
    ghost predicate Valid()
      reads this
    {
      && entrantMap.Keys <= issued
      && forall i :: i in issued ==> i <= lastId
    }

    /** Takes over the seed map (null means a new empty one) and starts the
        counter at its largest key, or at 0 when it is empty. */
    constructor (seed: Option<map<int32, Entrant>>)
      ensures entrantMap == (if seed.Some? then seed.value else map[])
      ensures entrantMap == map[] ==> lastId == 0
      ensures entrantMap != map[] ==> lastId in entrantMap && forall k :: k in entrantMap ==> k <= lastId
      ensures issued == entrantMap.Keys
      ensures Valid()
    {
      var m: map<int32, Entrant> := if seed.Some? then seed.value else map[];
      entrantMap := m;
      if |m| > 0 {
        lastId := MaxKey(m.Keys);
      } else {
        lastId := 0;
      }
      issued := m.Keys;
    }

    /** ConcurrentDictionary.TryAdd: inserts only when the key is absent. */
    method TryAdd(key: int32, value: Entrant) returns (added: bool)
      modifies this`entrantMap
      ensures added <==> key !in old(entrantMap)
      ensures entrantMap == if added then old(entrantMap)[key := value] else old(entrantMap)
    {
      added := key !in entrantMap;
      if added {
        entrantMap := entrantMap[key := value];
      }
    }

    /** ConcurrentDictionary.TryGetValue: the value under the key, if any. */
    method TryGetValue(key: int32) returns (found: bool, value: Option<Entrant>)
      ensures found <==> key in entrantMap
      ensures found ==> value == Some(entrantMap[key])
      ensures !found ==> value == None
    {
      found := key in entrantMap;
      value := if found then Some(entrantMap[key]) else None;
    }

    /** ConcurrentDictionary.TryRemove: removes the key when it is present. */
    method TryRemove(key: int32) returns (removed: bool)
      modifies this`entrantMap
      ensures removed <==> key in old(entrantMap)
      ensures entrantMap == old(entrantMap) - {key}
    {
      removed := key in entrantMap;
      entrantMap := entrantMap - {key};
    }

    /** Validates the candidate, takes the next id and stores the candidate under it. */
    method Create(candidate: Option<Entrant>) returns (r: Outcome<Entrant>)
      modifies this
      ensures candidate.None? ==> r == Threw(ArgumentNull(Some("entrant")))
      ensures candidate.Some? && IsNullOrWhiteSpace(candidate.value.firstName) ==>
                r == Threw(Argument(Some("FirstName")))
      ensures candidate.Some? && !IsNullOrWhiteSpace(candidate.value.firstName) && IsNullOrWhiteSpace(candidate.value.lastName) ==>
                r == Threw(Argument(Some("LastName")))
      // a rejected candidate leaves the whole store untouched
      ensures !HasNames(candidate) ==>
                entrantMap == old(entrantMap) && lastId == old(lastId) && issued == old(issued)
      // an accepted candidate always advances the counter, even if the insert then fails
      ensures HasNames(candidate) ==> lastId == Increment(old(lastId)) && issued == old(issued) + {lastId}
      ensures HasNames(candidate) && lastId !in old(entrantMap) ==>
                && r == Returned(candidate.value.(id := lastId))
                && entrantMap == old(entrantMap)[lastId := r.value]
      ensures HasNames(candidate) && lastId in old(entrantMap) ==>
                r == Threw(Other("Create new Entrant failed")) && entrantMap == old(entrantMap)
      // while the counter has not reached int.MaxValue, the insert cannot collide
      ensures old(Valid()) && old(lastId) < MaxInt32 ==>
                && Valid()
                && (r.Returned? <==> HasNames(candidate))
                && (r.Threw? ==> IsArgumentException(r.exn))
                && (r.Returned? ==> r.value.id as int == old(lastId) as int + 1 && r.value.id !in old(issued))
    {
      if candidate.None? {
        return Threw(ArgumentNull(Some("entrant")));
      }
      var entrant := candidate.value;
      if IsNullOrWhiteSpace(entrant.firstName) {
        return Threw(Argument(Some("FirstName")));
      }
      if IsNullOrWhiteSpace(entrant.lastName) {
        return Threw(Argument(Some("LastName")));
      }
      lastId := Increment(lastId);
      issued := issued + {lastId};
      entrant := entrant.(id := lastId);
      var added := TryAdd(entrant.id, entrant);
      if !added {
        return Threw(Other("Create new Entrant failed"));
      }
      return Returned(entrant);
    }

    /** Removes the entrant with the given id; the counter is not touched, so the id is never handed out again. */
    method Delete(id: int32) returns (r: Outcome<()>)
      modifies this`entrantMap
      ensures r == if id in old(entrantMap) then Returned(()) else Threw(EntrantNotFound(id))
      ensures entrantMap == old(entrantMap) - {id}
      ensures old(Valid()) ==> Valid()
    {
      var deleted := false;
      if id in entrantMap {
        var found, _ := TryGetValue(id);
        if found {
          deleted := TryRemove(id);
        }
      }
      if deleted {
        return Returned(());
      } else {
        return Threw(EntrantNotFound(id));
      }
    }

    /** A snapshot of all stored entrants, one per key, in an unspecified order. */
    method GetAll() returns (es: seq<Entrant>, ghost ks: seq<int32>)
      ensures Enumerates(entrantMap, es, ks)
      ensures entrantMap == map[] <==> es == []
    {
      var rest := entrantMap.Keys;
      es, ks := [], [];
      while rest != {}
        invariant rest <= entrantMap.Keys
        invariant |ks| == |es| && |ks| + |rest| == |entrantMap|
        invariant forall i :: 0 <= i < |ks| ==> ks[i] in entrantMap && ks[i] !in rest && es[i] == entrantMap[ks[i]]
        invariant forall i, j :: 0 <= i < j < |ks| ==> ks[i] != ks[j]
        invariant forall k :: k in entrantMap && k !in rest ==> k in ks
        decreases rest
      {
        var k :| k in rest;
        es, ks := es + [entrantMap[k]], ks + [k];
        rest := rest - {k};
      }
    }

    /** The entrant stored under `id`, or EntrantNotFound. */
    method GetById(id: int32) returns (r: Outcome<Entrant>)
      ensures r.Returned? <==> id in entrantMap
      ensures r.Returned? ==> r.value == entrantMap[id]
      ensures r.Threw? ==> r.exn == EntrantNotFound(id)
    {
      if id in entrantMap {
        var found, e := TryGetValue(id);
        if found {
          return Returned(e.value);
        }
      }
      return Threw(EntrantNotFound(id));
    }
  }
}
