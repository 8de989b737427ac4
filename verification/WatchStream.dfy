/** The stream of resource events and what it says at any point, independently
    of any cache (gpustack/client/generated_model_instance_client.py:123-161,
    207-305). All generated clients share this code. */
module WatchStream {
  import opened Lists

  /** A resource: its id, and the printed form of each attribute it has. */
  datatype Item = Item(id: int, attrs: map<string, string>)

  datatype Kind = Created | Updated | Deleted

  /** Event payloads: nothing but an id, a full resource, or something that does
      not validate. */
  datatype Data = IdOnly | Full(item: Item) | Malformed

  datatype Event = Event(kind: Kind, id: Option<int>, data: Data)

  predicate IsIdOnlyDelete(e: Event) { e.kind == Deleted && e.id.Some? && e.data.IdOnly? }

  // ----- the dictionary, in insertion order --------------------------------

  function Lookup(cache: seq<Item>, id: int): Option<Item> {
    if cache == [] then None else if cache[0].id == id then Some(cache[0]) else Lookup(cache[1..], id)
  }

  /** Assigning to a key: in place if it is there, at the end if not. */
  function Put(cache: seq<Item>, item: Item): seq<Item> {
    if cache == [] then [item]
    else if cache[0].id == item.id then [item] + cache[1..]
    else [cache[0]] + Put(cache[1..], item)
  }

  function Pop(cache: seq<Item>, id: int): seq<Item> {
    if cache == [] then []
    else if cache[0].id == id then cache[1..]
    else [cache[0]] + Pop(cache[1..], id)
  }

  predicate DistinctIds(cache: seq<Item>) {
    forall i, j :: 0 <= i < j < |cache| ==> cache[i].id != cache[j].id
  }

  lemma {:induction false} LookupMember(cache: seq<Item>, item: Item)
    requires DistinctIds(cache)
    ensures item in cache <==> Lookup(cache, item.id) == Some(item)
  {
    if cache != [] {
      LookupMember(cache[1..], item);
      assert cache == [cache[0]] + cache[1..];
    }
  }

  lemma {:induction false} LookupNone(cache: seq<Item>, id: int)
    ensures Lookup(cache, id).None? <==> forall i :: 0 <= i < |cache| ==> cache[i].id != id
    ensures Lookup(cache, id).Some? ==> Lookup(cache, id).value.id == id
  {
    if cache != [] {
      LookupNone(cache[1..], id);
      assert cache == [cache[0]] + cache[1..];
    }
  }

  lemma {:induction false} PutLookup(cache: seq<Item>, item: Item, id: int)
    ensures Lookup(Put(cache, item), id) == if id == item.id then Some(item) else Lookup(cache, id)
  {
    if cache != [] && cache[0].id != item.id {
      PutLookup(cache[1..], item, id);
      assert Put(cache, item)[1..] == Put(cache[1..], item);
    }
  }

  lemma {:induction false} PopLookup(cache: seq<Item>, k: int, id: int)
    requires DistinctIds(cache)
    ensures Lookup(Pop(cache, k), id) == if id == k then None else Lookup(cache, id)
  {
    if cache != [] {
      if cache[0].id != k {
        PopLookup(cache[1..], k, id);
        assert Pop(cache, k)[1..] == Pop(cache[1..], k);
      } else if id == k {
        LookupNone(cache[1..], k);
      }
    }
  }

  // ----- what one event does -----------------------------------------------

  /** The cache update for one event; a payload that does not validate is logged
      and changes nothing. */
  function Update(cache: seq<Item>, e: Event): seq<Item> {
    if IsIdOnlyDelete(e) then Pop(cache, e.id.value) else
    match e.data
    case Full(item) => if e.kind == Deleted then Pop(cache, item.id) else Put(cache, item)
    case _ => cache
  }

  function Replay(events: seq<Event>): seq<Item> {
    if events == [] then [] else Update(Replay(events[..|events| - 1]), events[|events| - 1])
  }

  /** What an event says about a resource: nothing, that it is gone, or its new
      version. */
  datatype News = Silent | Gone | Version(item: Item)

  function About(e: Event, id: int): News {
    if IsIdOnlyDelete(e) then (if e.id.value == id then Gone else Silent) else
    match e.data
    case Full(item) => if item.id != id then Silent else if e.kind == Deleted then Gone else Version(item)
    case _ => Silent
  }

  /** The independent reading of the stream: the version in the last event that
      says anything about the resource. */
  function LastVersion(events: seq<Event>, id: int): Option<Item> {
    if events == [] then None else
    match About(events[|events| - 1], id)
    case Silent => LastVersion(events[..|events| - 1], id)
    case Gone => None
    case Version(item) => Some(item)
  }

  /** Since which event the resource has been there without interruption. */
  function Since(events: seq<Event>, id: int): nat {
    if events == [] then 0
    else if LastVersion(events[..|events| - 1], id).None? then |events| - 1
    else Since(events[..|events| - 1], id)
  }

  /** The resources stand in the order in which they appeared. */
  ghost predicate InOrder(events: seq<Event>, cache: seq<Item>) {
    cache == [] || (InOrder(events, cache[1..]) &&
                    forall y :: y in cache[1..] ==> Since(events, cache[0].id) < Since(events, y.id))
  }

  lemma {:induction false} PopMember(cache: seq<Item>, id: int, y: Item)
    requires DistinctIds(cache)
    ensures y in Pop(cache, id) <==> y in cache && y.id != id
  {
    if cache != [] {
      assert cache == [cache[0]] + cache[1..];
      if cache[0].id != id {
        PopMember(cache[1..], id, y);
      } else if y in cache[1..] {
        var j :| 0 <= j < |cache[1..]| && cache[1..][j] == y;
        assert cache[j + 1] == y;
      }
    }
  }

  lemma {:induction false} PopDistinct(cache: seq<Item>, id: int)
    requires DistinctIds(cache)
    ensures DistinctIds(Pop(cache, id))
  {
    if cache != [] && cache[0].id != id {
      PopDistinct(cache[1..], id);
      ConsDistinct(cache, id);
    }
  }

  lemma ConsDistinct(cache: seq<Item>, id: int)
    requires DistinctIds(cache) && cache != [] && DistinctIds(Pop(cache[1..], id))
    ensures DistinctIds([cache[0]] + Pop(cache[1..], id))
  {
    var rest := Pop(cache[1..], id);
    forall j | 0 <= j < |rest| ensures rest[j].id != cache[0].id {
      assert rest[j] in rest;
      PopMember(cache[1..], id, rest[j]);
      var k :| 0 <= k < |cache[1..]| && cache[1..][k] == rest[j];
      assert cache[k + 1] == rest[j];
    }
  }

  lemma {:induction false} SameOrder(events: seq<Event>, all: seq<Event>, cache: seq<Item>)
    requires InOrder(events, cache) && forall y :: y in cache ==> Since(all, y.id) == Since(events, y.id)
    ensures InOrder(all, cache)
  {
    if cache != [] {
      assert cache[0] in cache && forall y :: y in cache[1..] ==> y in cache;
      SameOrder(events, all, cache[1..]);
    }
  }

  lemma {:induction false} PopOrder(events: seq<Event>, all: seq<Event>, cache: seq<Item>, k: int)
    requires DistinctIds(cache) && InOrder(events, cache)
    requires forall y :: y in cache && y.id != k ==> Since(all, y.id) == Since(events, y.id)
    ensures InOrder(all, Pop(cache, k))
  {
    if cache != [] {
      assert cache[0] in cache && forall y :: y in cache[1..] ==> y in cache;
      if cache[0].id == k {
        forall y | y in cache[1..] ensures y.id != k { PopMember(cache, k, y); }
        SameOrder(events, all, cache[1..]);
      } else {
        PopOrder(events, all, cache[1..], k);
        forall y | y in Pop(cache[1..], k) ensures Since(all, cache[0].id) < Since(all, y.id) {
          PopMember(cache[1..], k, y);
        }
        assert Pop(cache, k)[1..] == Pop(cache[1..], k);
      }
    }
  }

  lemma {:induction false} PutMember(cache: seq<Item>, item: Item, y: Item)
    ensures y in Put(cache, item) ==> y == item || y in cache
  {
    if cache != [] && cache[0].id != item.id {
      PutMember(cache[1..], item, y);
    }
  }

  lemma {:induction false} PutDistinct(cache: seq<Item>, item: Item)
    requires DistinctIds(cache)
    ensures DistinctIds(Put(cache, item))
  {
    if cache != [] && cache[0].id != item.id {
      PutDistinct(cache[1..], item);
      var rest := Put(cache[1..], item);
      forall j | 0 <= j < |rest| ensures rest[j].id != cache[0].id {
        assert rest[j] in rest;
        PutMember(cache[1..], item, rest[j]);
        if rest[j] != item {
          var k :| 0 <= k < |cache[1..]| && cache[1..][k] == rest[j];
          assert cache[k + 1] == rest[j];
        }
      }
    }
  }

  lemma {:induction false} PutOrder(events: seq<Event>, all: seq<Event>, cache: seq<Item>, item: Item)
    requires DistinctIds(cache) && InOrder(events, cache)
    requires forall y :: y in cache ==> Since(all, y.id) == Since(events, y.id)
    requires Lookup(cache, item.id).Some? || forall y :: y in cache ==> Since(events, y.id) < Since(all, item.id)
    ensures InOrder(all, Put(cache, item))
  {
    if cache != [] {
      assert cache[0] in cache && forall y :: y in cache[1..] ==> y in cache;
      if cache[0].id == item.id {
        SameOrder(events, all, cache[1..]);
        assert Put(cache, item)[1..] == cache[1..];
      } else {
        PutOrder(events, all, cache[1..], item);
        LookupNone(cache[1..], item.id);
        forall y | y in Put(cache[1..], item) ensures Since(all, cache[0].id) < Since(all, y.id) {
          PutMember(cache[1..], item, y);
          if y == item && Lookup(cache[1..], item.id).Some? {
            var old' := Lookup(cache[1..], item.id).value;
            LookupMember(cache[1..], old');
            assert old' in cache[1..];
          }
        }
        assert Put(cache, item)[1..] == Put(cache[1..], item);
      }
    }
  }

  // ----- the replay is what the stream says --------------------------------

  /** A cache that shows the stream: right versions, in order of appearance. */
  ghost predicate Shows(events: seq<Event>, cache: seq<Item>) {
    && DistinctIds(cache) && InOrder(events, cache)
    && (forall id :: Lookup(cache, id) == LastVersion(events, id))
  }

  lemma {:induction false} SinceBefore(events: seq<Event>, id: int)
    requires LastVersion(events, id).Some?
    ensures events != [] && Since(events, id) < |events|
  {
    if LastVersion(events[..|events| - 1], id).Some? {
      SinceBefore(events[..|events| - 1], id);
    }
  }

  lemma CachedSince(events: seq<Event>, cache: seq<Item>, y: Item)
    requires Shows(events, cache) && y in cache
    ensures LastVersion(events, y.id).Some? && Since(events, y.id) < |events|
  {
    LookupMember(cache, y);
    assert Lookup(cache, y.id) == LastVersion(events, y.id);
    SinceBefore(events, y.id);
  }

  lemma PopKeepsOrder(events: seq<Event>, all: seq<Event>, cache: seq<Item>, k: int)
    requires all != [] && events == all[..|all| - 1] && Shows(events, cache)
    ensures DistinctIds(Pop(cache, k)) && InOrder(all, Pop(cache, k))
  {
    PopDistinct(cache, k);
    forall y | y in cache ensures Since(all, y.id) == Since(events, y.id) { CachedSince(events, cache, y); }
    PopOrder(events, all, cache, k);
  }

  lemma PutKeepsOrder(events: seq<Event>, all: seq<Event>, cache: seq<Item>, item: Item)
    requires all != [] && events == all[..|all| - 1] && Shows(events, cache)
    ensures DistinctIds(Put(cache, item)) && InOrder(all, Put(cache, item))
  {
    PutDistinct(cache, item);
    forall y | y in cache ensures Since(all, y.id) == Since(events, y.id) < |events| { CachedSince(events, cache, y); }
    assert Lookup(cache, item.id) == LastVersion(events, item.id);
    PutOrder(events, all, cache, item);
  }

  lemma UpdateShows(all: seq<Event>, cache: seq<Item>)
    requires all != [] && Shows(all[..|all| - 1], cache)
    ensures Shows(all, Update(cache, all[|all| - 1]))
  {
    var events, e := all[..|all| - 1], all[|all| - 1];
    forall id ensures Lookup(Update(cache, e), id) == LastVersion(all, id) {
      if IsIdOnlyDelete(e) {
        PopLookup(cache, e.id.value, id);
      } else if e.data.Full? {
        PopLookup(cache, e.data.item.id, id);
        PutLookup(cache, e.data.item, id);
      }
    }
    if IsIdOnlyDelete(e) {
      PopKeepsOrder(events, all, cache, e.id.value);
    } else if e.data.Full? {
      if e.kind == Deleted {
        PopKeepsOrder(events, all, cache, e.data.item.id);
      } else {
        PutKeepsOrder(events, all, cache, e.data.item);
      }
    } else {
      forall y | y in cache ensures Since(all, y.id) == Since(events, y.id) { CachedSince(events, cache, y); }
      SameOrder(events, all, cache);
    }
  }

  /** Replaying the events into an empty dictionary gives, for every resource,
      its last version in the stream, listed in order of appearance. */
  lemma {:induction false} ReplayShows(events: seq<Event>)
    ensures Shows(events, Replay(events))
  {
    if events != [] {
      ReplayShows(events[..|events| - 1]);
      UpdateShows(events, Replay(events[..|events| - 1]));
    }
  }
}
