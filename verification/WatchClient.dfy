/** The cache of a generated client: one watch loop writes it, any number of
    readers look at it between the loop's lock sections
    (gpustack/client/generated_model_instance_client.py:24-161, 207-329). */
module WatchClient {
  import opened Lists
  import opened WatchStream
  import Traces

  // ----- the lock sections as steps ----------------------------------------

  /** `delivered` is what the current connection has delivered so far. */
  datatype State = State(started: bool, cache: seq<Item>, delivered: seq<Event>)

  datatype Section = Connect | Deliver(event: Event) | TearDown

  const IDLE := State(false, [], [])

  /** A section of the watch loop; nothing is delivered without a connection. */
  function Next(s: State, section: Section): State {
    match section
    case Connect => State(true, [], [])
    case Deliver(e) => if s.started then State(true, Update(s.cache, e), s.delivered + [e]) else s
    case TearDown => IDLE
  }

  function Step(): (State, Section) -> State { (s, section) => Next(s, section) }

  function Run(s: State, sections: seq<Section>): State { Traces.Run(Step(), s, sections) }

  /** The cache is the replay of what was delivered, and empty while there is no
      connection. */
  ghost predicate Inv(s: State) {
    s.cache == Replay(s.delivered) && (!s.started ==> s.delivered == [])
  }

  lemma DeliverReplays(s: State, e: Event)
    requires Inv(s) && s.started
    ensures Inv(Next(s, Deliver(e)))
  {
    var all := s.delivered + [e];
    assert all[..|all| - 1] == s.delivered && all[|all| - 1] == e;
  }

  lemma {:induction false} RunKeeps(s: State, sections: seq<Section>)
    requires Inv(s)
    ensures Inv(Run(s, sections))
    decreases |sections|
  {
    if sections != [] {
      if sections[0].Deliver? && s.started {
        DeliverReplays(s, sections[0].event);
      }
      RunKeeps(Next(s, sections[0]), sections[1..]);
    }
  }

  /** In every reachable state the cache shows exactly the stream of the current
      connection: for each resource its last version, in order of appearance;
      and nothing while there is no connection. */
  lemma CacheShowsStream(sections: seq<Section>)
    ensures var s := Run(IDLE, sections);
      Shows(s.delivered, s.cache) && (!s.started ==> s.cache == [])
  {
    RunKeeps(IDLE, sections);
    ReplayShows(Run(IDLE, sections).delivered);
  }

  // ----- readers -----------------------------------------------------------

  datatype Param = Param(key: string, value: string)

  /** An item passes a parameter unless it has that attribute with another
      printed value; `watch` is not a filter. */
  predicate Passes(item: Item, p: Param) {
    p.key == "watch" || p.key !in item.attrs || item.attrs[p.key] == p.value
  }

  function PassesAll(params: seq<Param>): Item -> bool {
    (item: Item) => forall p :: p in params ==> Passes(item, p)
  }

  datatype Listing = Listing(items: seq<Item>, total: nat, page: nat, perPage: nat, totalPage: nat)

  function ListingOf(items: seq<Item>): Listing {
    Listing(items, |items|, 1, if |items| > 0 then |items| else 100, if |items| > 0 then 1 else 0)
  }

  function ListFromCache(s: State, params: seq<Param>): Option<Listing> {
    if !s.started then None else Some(ListingOf(Filter(PassesAll(params), s.cache)))
  }

  /** Where an answer comes from: the cache, or a call with these parameters. */
  datatype ListAnswer = Cached(listing: Listing) | CallList(params: seq<Param>)

  predicate Paged(params: seq<Param>) { exists p :: p in params && p.key in {"page", "perPage"} }

  /** `list`: a call that stands in for the cache asks for everything. */
  function List(s: State, enabled: bool, useCache: bool, params: seq<Param>): ListAnswer {
    if useCache && enabled && !Paged(params) then
      match ListFromCache(s, params)
      case Some(listing) => Cached(listing)
      case None => CallList(params + [Param("page", "-1")])
    else CallList(params)
  }

  datatype GetAnswer = Hit(item: Item) | CallGet

  function Get(s: State, enabled: bool, useCache: bool, id: int): GetAnswer {
    if useCache && enabled && s.started && Lookup(s.cache, id).Some? then Hit(Lookup(s.cache, id).value) else CallGet
  }

  /** A list is answered from the cache exactly when there is a connection and
      no paging. Then it is the stream so far, filtered: exactly the last
      versions of which no attribute contradicts a parameter, each once and in
      order of appearance. Else the server is asked, and for everything
      exactly when the cache would have answered had there been a connection. */
  lemma ListShowsStream(sections: seq<Section>, useCache: bool, params: seq<Param>, item: Item)
    ensures var s, a := Run(IDLE, sections), List(Run(IDLE, sections), true, useCache, params);
      && (a.Cached? <==> useCache && s.started && !Paged(params))
      && (a.Cached? ==>
            && (item in a.listing.items <==>
                  && LastVersion(s.delivered, item.id) == Some(item)
                  && forall p :: p in params && p.key != "watch" && p.key in item.attrs ==> item.attrs[p.key] == p.value)
            && DistinctIds(a.listing.items) && InOrder(s.delivered, a.listing.items))
      && (a.CallList? ==> (Param("page", "-1") in a.params <==>
            (useCache && !s.started && !Paged(params)) || Param("page", "-1") in params))
      && (a.CallList? ==> params <= a.params)
  {
    CacheShowsStream(sections);
    var s := Run(IDLE, sections);
    if s.started {
      LookupMember(s.cache, item);
      assert Lookup(s.cache, item.id) == LastVersion(s.delivered, item.id);
      FilterMember(PassesAll(params), s.cache, item);
      FilterDistinct(PassesAll(params), s.cache);
      FilterInOrder(PassesAll(params), s.delivered, s.cache);
      assert PassesAll(params)(item) <==>
        forall p :: p in params && p.key != "watch" && p.key in item.attrs ==> item.attrs[p.key] == p.value;
    }
  }

  /** The page information of a cached list is that of a server that puts
      everything on one page: as many pages as the items need at that size. */
  lemma CachedListIsOnePage(s: State, params: seq<Param>, listing: Listing)
    requires ListFromCache(s, params) == Some(listing)
    ensures listing.total == |listing.items| && listing.page == 1 && 0 < listing.perPage
    ensures listing.perPage == (if listing.items == [] then 100 else |listing.items|)
    ensures listing.totalPage == (listing.total + listing.perPage - 1) / listing.perPage
  {
    if listing.items != [] {
      var n: nat := |listing.items|;
      assert n + n - 1 == n * 1 + (n - 1);
    }
  }

  lemma {:induction false} FilterDistinct(f: Item -> bool, s: seq<Item>)
    requires DistinctIds(s)
    ensures DistinctIds(Filter(f, s))
  {
    if s != [] {
      FilterDistinct(f, s[1..]);
      var rest := Filter(f, s[1..]);
      forall j | 0 <= j < |rest| ensures rest[j].id != s[0].id {
        assert rest[j] in rest;
        FilterMember(f, s[1..], rest[j]);
        var k :| 0 <= k < |s[1..]| && s[1..][k] == rest[j];
        assert s[k + 1] == rest[j];
      }
    }
  }

  lemma {:induction false} FilterInOrder(f: Item -> bool, events: seq<Event>, s: seq<Item>)
    requires InOrder(events, s)
    ensures InOrder(events, Filter(f, s))
  {
    if s != [] {
      FilterInOrder(f, events, s[1..]);
      FilterMembers(f, s[1..]);
      assert ([s[0]] + Filter(f, s[1..]))[1..] == Filter(f, s[1..]);
    }
  }

  /** A client without cache, and a reader that does not want it, always call, and
      with the parameters as given. */
  lemma UncachedAlwaysCalls(s: State, enabled: bool, useCache: bool, params: seq<Param>, id: int)
    requires !enabled || !useCache
    ensures List(s, enabled, useCache, params) == CallList(params) && Get(s, enabled, useCache, id) == CallGet
  {
  }

  /** A hit is the last version the connection delivered. */
  lemma GetShowsStream(sections: seq<Section>, useCache: bool, id: int)
    ensures var s := Run(IDLE, sections);
      forall item :: Get(s, true, useCache, id) == Hit(item) <==> useCache && s.started && LastVersion(s.delivered, id) == Some(item)
  {
    CacheShowsStream(sections);
    var s := Run(IDLE, sections);
    assert Lookup(s.cache, id) == LastVersion(s.delivered, id);
  }

  // ----- what reaches the callback -----------------------------------------

  /** The event as the callback gets it: an id-only delete is completed from the
      cache, and an event still without a resource is not passed on. */
  function CallbackEvent(cache: seq<Item>, enabled: bool, e: Event): Option<Event> {
    var item := Lookup(cache, e.id.GetOr(0));
    var full := if enabled && IsIdOnlyDelete(e) && item.Some? then e.(data := Full(item.value)) else e;
    if full.data.IdOnly? && full.id.Some? then None else Some(full)
  }

  /** An id-only delete reaches the callback if and only if the resource is
      there in the stream so far, and then with its last delivered version. */
  lemma IdOnlyDeleteReachesCallbackIff(sections: seq<Section>, e: Event)
    requires IsIdOnlyDelete(e)
    ensures var s := Run(IDLE, sections);
      CallbackEvent(s.cache, true, e) ==
        match LastVersion(s.delivered, e.id.value)
        case None => None
        case Some(item) => Some(e.(data := Full(item)))
  {
    CacheShowsStream(sections);
    var s := Run(IDLE, sections);
    assert Lookup(s.cache, e.id.value) == LastVersion(s.delivered, e.id.value);
  }

  /** An event that names a resource without carrying it. */
  predicate IsBare(e: Event) { e.data.IdOnly? && e.id.Some? }

  /** What the callback is told of an event, given what the connection delivered
      before it: an event that is not bare, as it is; a bare deletion completed
      by the resource's last version, if it has one and the cache is on; any
      other bare event not at all. */
  function Announcement(enabled: bool, before: seq<Event>, e: Event): seq<Event> {
    if !IsBare(e) then [e]
    else if !enabled || e.kind != Deleted then []
    else match LastVersion(before, e.id.value)
      case None => []
      case Some(item) => [Event(Deleted, e.id, Full(item))]
  }

  function Announcements(enabled: bool, before: seq<Event>, events: seq<Event>): seq<Event>
    decreases |events|
  {
    if events == [] then []
    else Announcement(enabled, before, events[0]) + Announcements(enabled, before + [events[0]], events[1..])
  }

  /** What the callback gets while these events come in. */
  function Callbacks(enabled: bool, s: State, events: seq<Event>): seq<Event>
    decreases |events|
  {
    if events == [] then [] else
    var passed := CallbackEvent(s.cache, enabled, events[0]);
    (if passed.Some? then [passed.value] else []) +
    Callbacks(enabled, if enabled then Next(s, Deliver(events[0])) else s, events[1..])
  }

  /** One event, in every state: with the cache on, the callback is told what the
      stream so far says. */
  lemma CallbackAnnounces(s: State, enabled: bool, e: Event)
    requires Inv(s)
    ensures (match CallbackEvent(s.cache, enabled, e) case None => [] case Some(x) => [x]) == Announcement(enabled, s.delivered, e)
  {
    ReplayShows(s.delivered);
    if e.id.Some? {
      assert Lookup(s.cache, e.id.value) == LastVersion(s.delivered, e.id.value);
    }
  }

  lemma {:induction false} CallbacksAnnounce(enabled: bool, s: State, events: seq<Event>)
    requires Inv(s) && (enabled ==> s.started)
    ensures enabled ==> Callbacks(enabled, s, events) == Announcements(enabled, s.delivered, events)
    ensures !enabled ==> Callbacks(enabled, s, events) == Filter((e: Event) => !IsBare(e), events)
    decreases |events|
  {
    if events != [] {
      CallbackAnnounces(s, enabled, events[0]);
      if enabled {
        DeliverReplays(s, events[0]);
        CallbacksAnnounce(enabled, Next(s, Deliver(events[0])), events[1..]);
      } else {
        CallbacksAnnounce(enabled, s, events[1..]);
      }
    }
  }

  /** Over a whole connection, after any history: the callback gets the delivered
      events in order, less the bare ones, of which it gets the deletions of
      resources that are there, completed by their last version. With the cache
      off it gets exactly those that are not bare. */
  lemma CallbacksOfConnection(history: seq<Section>, events: seq<Event>)
    ensures Callbacks(true, Run(IDLE, history + [Connect]), events) == Announcements(true, [], events)
    ensures Callbacks(false, IDLE, events) == Filter((e: Event) => !IsBare(e), events)
  {
    Traces.RunConcat(Step(), IDLE, history, [Connect]);
    assert [Connect][1..] == [];
    assert Run(IDLE, history + [Connect]) == State(true, [], []);
    CallbacksAnnounce(true, State(true, [], []), events);
    CallbacksAnnounce(false, IDLE, events);
  }

  // ----- a server that replays what it has ---------------------------------

  /** A change on the server, and the event it sends; a deletion may come with
      the resource or with its id only. */
  datatype Change = Upsert(item: Item, created: bool) | Remove(id: int, last: Option<Item>)

  predicate Valid(c: Change) { c.Remove? && c.last.Some? ==> c.last.value.id == c.id }

  function EventOf(c: Change): Event {
    match c
    case Upsert(item, created) => Event(if created then Created else Updated, Some(item.id), Full(item))
    case Remove(id, None) => Event(Deleted, Some(id), IdOnly)
    case Remove(id, Some(item)) => Event(Deleted, Some(id), Full(item))
  }

  function Applied(db: map<int, Item>, changes: seq<Change>): map<int, Item> {
    if changes == [] then db else
    var before := Applied(db, changes[..|changes| - 1]);
    match changes[|changes| - 1]
    case Upsert(item, _) => before[item.id := item]
    case Remove(id, _) => before - {id}
  }

  /** Replaying the existing rows: one creation each. */
  function Snapshot(rows: seq<Item>): seq<Change> { Map((item: Item) => Upsert(item, true), rows) }

  function Events(changes: seq<Change>): (es: seq<Event>)
    ensures |es| == |changes| && forall i :: 0 <= i < |es| ==> es[i] == EventOf(changes[i])
  {
    if changes == [] then [] else [EventOf(changes[0])] + Events(changes[1..])
  }

  lemma ChangeNews(c: Change, id: int)
    requires Valid(c)
    ensures About(EventOf(c), id) ==
      match c
      case Upsert(item, _) => if item.id == id then Version(item) else Silent
      case Remove(k, _) => if k == id then Gone else Silent
  {
  }

  function RowAt(db: map<int, Item>, id: int): Option<Item> { if id in db then Some(db[id]) else None }

  lemma {:induction false} StreamIsTable(changes: seq<Change>, id: int)
    requires forall i :: 0 <= i < |changes| ==> Valid(changes[i])
    ensures LastVersion(Events(changes), id) == RowAt(Applied(map[], changes), id)
  {
    if changes != [] {
      var front := changes[..|changes| - 1];
      StreamIsTable(front, id);
      ChangeNews(changes[|changes| - 1], id);
      assert Events(changes)[..|changes| - 1] == Events(front);
    }
  }

  /** In the server's terms: of every change the callback is told with the resource
      in full, a deletion with the row as the table had it; only the deletion of
      a row that is not there, sent as an id, is passed over. */
  lemma ChangeIsAnnounced(changes: seq<Change>, c: Change)
    requires forall i :: 0 <= i < |changes| ==> Valid(changes[i])
    ensures Announcement(true, Events(changes), EventOf(c)) ==
      match c
      case Upsert(item, created) => [Event(if created then Created else Updated, Some(item.id), Full(item))]
      case Remove(id, Some(item)) => [Event(Deleted, Some(id), Full(item))]
      case Remove(id, None) =>
        var table := Applied(map[], changes);
        if id in table then [Event(Deleted, Some(id), Full(table[id]))] else []
  {
    if c.Remove? {
      StreamIsTable(changes, c.id);
    }
  }

  function Deliveries(events: seq<Event>): seq<Section> {
    if events == [] then [] else [Deliver(events[0])] + Deliveries(events[1..])
  }

  lemma {:induction false} DeliverAll(s: State, events: seq<Event>)
    requires s.started
    ensures Run(s, Deliveries(events)).started && Run(s, Deliveries(events)).delivered == s.delivered + events
    decreases |events|
  {
    if events == [] {
      assert s.delivered + events == s.delivered;
    } else {
      var sections := Deliveries(events);
      assert sections[0] == Deliver(events[0]) && sections[1..] == Deliveries(events[1..]);
      DeliverAll(Next(s, Deliver(events[0])), events[1..]);
      assert s.delivered + [events[0]] + events[1..] == s.delivered + events;
    }
  }

  lemma DeliveredSinceConnect(history: seq<Section>, events: seq<Event>)
    ensures Run(IDLE, history + ([Connect] + Deliveries(events))).delivered == events
  {
    var rest := [Connect] + Deliveries(events);
    Traces.RunConcat(Step(), IDLE, history, rest);
    assert rest[1..] == Deliveries(events);
    DeliverAll(State(true, [], []), events);
    assert [] + events == events;
  }

  /** After any history, however the last connection ended: once the server's
      snapshot and any number of further changes are delivered, the cache is the
      server's table as of the last delivered change. What was deleted while
      disconnected is gone. */
  lemma CacheMirrorsServer(history: seq<Section>, rows: seq<Item>, changes: seq<Change>, id: int)
    requires forall i :: 0 <= i < |changes| ==> Valid(changes[i])
    ensures var all := Snapshot(rows) + changes;
      Lookup(Run(IDLE, history + ([Connect] + Deliveries(Events(all)))).cache, id) == RowAt(Applied(map[], all), id)
  {
    var all := Snapshot(rows) + changes;
    var sections := history + ([Connect] + Deliveries(Events(all)));
    DeliveredSinceConnect(history, Events(all));
    CacheShowsStream(sections);
    assert Lookup(Run(IDLE, sections).cache, id) == LastVersion(Run(IDLE, sections).delivered, id);
    StreamIsTable(all, id);
  }

  // ----- the client --------------------------------------------------------

  class Client {
    const enableCache: bool
    var cache: seq<Item>
    var watchStarted: bool
    ghost var delivered: seq<Event>

    constructor (enableCache: bool)
      ensures this.enableCache == enableCache && View() == IDLE
    {
      this.enableCache, cache, watchStarted, delivered := enableCache, [], false, [];
    }

    ghost function View(): State
      reads this
    {
      State(watchStarted, cache, delivered)
    }

    /** The connection is up: drop what an earlier one left. */
    method OnConnect()
      modifies this
      ensures View() == if enableCache then Next(old(View()), Connect) else old(View())
    {
      if enableCache {
        cache, delivered := [], [];
        watchStarted := true;
      }
    }

    /** One line of the stream: the cache is updated, then the callback gets the
        event unless it is still without a resource. */
    method OnEvent(event: Event) returns (passedOn: Option<Event>)
      requires enableCache ==> watchStarted
      modifies this
      ensures View() == if enableCache then Next(old(View()), Deliver(event)) else old(View())
      ensures passedOn == CallbackEvent(old(cache), enableCache, event)
      ensures !IsBare(event) ==> passedOn == Some(event)
    {
      var e := event;
      if enableCache {
        delivered := delivered + [event];
        if IsIdOnlyDelete(e) {
          var item := Lookup(cache, e.id.value);
          cache := Pop(cache, e.id.value);
          if item.Some? {
            e := e.(data := Full(item.value));
          }
        } else if e.data.Full? {
          if e.kind == Deleted {
            cache := Pop(cache, e.data.item.id);
          } else {
            cache := Put(cache, e.data.item);
          }
        }
      }
      if e.data.IdOnly? && e.id.Some? {
        passedOn := None;
      } else {
        passedOn := Some(e);
      }
    }

    /** The watch loop is over, however it ended. */
    method OnTearDown()
      requires !watchStarted ==> cache == [] && delivered == []
      modifies this
      ensures View() == if enableCache then Next(old(View()), TearDown) else old(View())
    {
      if enableCache {
        if watchStarted {
          watchStarted := false;
          cache, delivered := [], [];
        }
      }
    }

    method ListCached(params: seq<Param>) returns (listing: Option<Listing>)
      ensures listing == ListFromCache(View(), params)
    {
      if !watchStarted {
        return None;
      }
      var items := [];
      for i := 0 to |cache|
        invariant items == Filter(PassesAll(params), cache[..i])
      {
        FilterSnoc(PassesAll(params), cache, i);
        var matches := true;
        var k := 0;
        while k < |params|
          invariant 0 <= k <= |params| && matches && forall j :: 0 <= j < k ==> Passes(cache[i], params[j])
        {
          var p := params[k];
          k := k + 1;
          if p.key == "watch" {
            continue;
          }
          if p.key in cache[i].attrs && cache[i].attrs[p.key] != p.value {
            matches := false;
            assert p in params && !Passes(cache[i], p);
            break;
          }
        }
        if matches {
          items := items + [cache[i]];
        }
      }
      assert cache[..|cache|] == cache;
      listing := Some(ListingOf(items));
    }

    method ListAll(params: seq<Param>, useCache: bool) returns (answer: ListAnswer)
      ensures answer == List(View(), enableCache, useCache, params)
    {
      var paged := false;
      for k := 0 to |params|
        invariant paged <==> exists j :: 0 <= j < k && params[j].key in {"page", "perPage"}
      {
        paged := paged || params[k].key in {"page", "perPage"};
      }
      assert paged <==> Paged(params);
      if useCache && enableCache && !paged {
        var cached := ListCached(params);
        if cached.Some? {
          return Cached(cached.value);
        }
        return CallList(params + [Param("page", "-1")]);
      }
      answer := CallList(params);
    }

    /** A miss is answered by a call whose result is not put into the cache. */
    method GetOne(id: int, useCache: bool) returns (answer: GetAnswer)
      ensures answer == Get(View(), enableCache, useCache, id)
    {
      if useCache && enableCache {
        if watchStarted && Lookup(cache, id).Some? {
          return Hit(Lookup(cache, id).value);
        }
      }
      answer := CallGet;
    }
  }
}
