/** The ai-proxy resource over the lifetime of an installation: route and
    provider reconciles, and restarts with their startup pass, in any order
    (gpustack/gateway/utils.py:1588-1760, 1890-1920;
    gpustack/server/server.py:1224-1243). */
module AiProxyLifetimes {
  import opened Lists
  import opened StableSort
  import opened Names
  import opened AiProxyMerge
  import opened AiProxyRuns
  import Traces

  // ----- the rules on a route's ingresses ----------------------------------

  function RouteTouches(ns: Namespaces, routeId: nat): Rule -> bool {
    (r: Rule) => Touches(RouteIngresses(ns, routeId), r)
  }

  lemma RouteRulesTouchOnlyTheirOwn(ns: Namespaces, id: nat, groups: seq<Group>, other: nat)
    ensures forall r :: r in RouteRules(ns, id, groups) ==> (RouteTouches(ns, other)(r) <==> id == other)
  {
    IngressNamesApart(ns, id, other);
    forall r | r in RouteRules(ns, id, groups) ensures RouteTouches(ns, other)(r) <==> id == other {
      RouteRuleForm(ns, id, groups, r);
      OneIngress(r, RouteIngresses(ns, id), RouteIngresses(ns, other));
    }
  }

  /** Migration: in the one write of its reconcile a route also retires the
      provider an older version kept for it, unless a rule outside the route
      still points there. */
  lemma LegacyProviderRetired(ns: Namespaces, st: State, routeId: nat, groups: seq<Group>)
    requires forall r :: r in st.rules && RuleProviderId(r) == Some(LegacyRouteProviderId(routeId)) ==> RouteTouches(ns, routeId)(r)
    ensures LegacyRouteProviderId(routeId) !in ProviderIds(Merge(RouteDesired(ns, routeId, groups), st).providers)
    ensures forall r :: r in Merge(RouteDesired(ns, routeId, groups), st).rules ==>
      RuleProviderId(r) != Some(LegacyRouteProviderId(routeId))
  {
    var d, id := RouteDesired(ns, routeId, groups), LegacyRouteProviderId(routeId);
    RouteEntries(ns, routeId, groups);
    LegacyIdKind(routeId);
    var after := Merge(d, st);
    forall r | r in after.rules ensures RuleProviderId(r) != Some(id) {
      MergedRule(d, st.rules, r);
    }
    EntriesAfterMerge(d, st, id);
    forall p | p in after.providers ensures p.id != Some(id) {
      FilterMember(HasKey(ProviderKey(), [id]), after.providers, p);
    }
  }

  lemma LegacyIdKind(routeId: nat)
    ensures LegacyRouteProviderId(routeId) != "" && Collectable(LegacyRouteProviderId(routeId))
    ensures forall m :: ModelProviderId(m) != LegacyRouteProviderId(routeId)
  {
    assert LegacyRouteProviderId(routeId)[0] == 'a';
    forall m ensures ModelProviderId(m) != LegacyRouteProviderId(routeId) {
      assert ModelProviderId(m)[0] == 'g';
    }
  }

  // ----- the startup pass --------------------------------------------------

  /** The deployments, external providers and routes a startup pass finds. */
  datatype Live = Live(models: set<nat>, providers: set<nat>, routes: set<nat>)

  function IdsToKeep(live: Live): set<string> {
    (set m | m in live.models :: ModelProviderId(m)) + (set p | p in live.providers :: ProviderRegistryName(p)) +
    (set r | r in live.routes :: LegacyRouteProviderId(r))
  }

  function LiveIngresses(ns: Namespaces, live: Live): set<string> {
    set id, name | id in live.routes && name in RouteIngresses(ns, id) :: name
  }

  function KeepsAtStartup(ids: set<string>, ingresses: set<string>): Rule -> bool {
    (r: Rule) => RuleProviderId(r).Some? && RuleProviderId(r).value in ids &&
                 (Ingresses(r) == [] || Touches(ingresses, r))
  }

  function LiveProvider(live: Live): Provider -> bool {
    (p: Provider) => p.id.Some? && p.id.value != "" && p.id.value in IdsToKeep(live)
  }

  /** The startup pass: providers by id, then rules by the providers that are
      left and by ingress. Nothing is sorted. */
  function Cleanup(ns: Namespaces, live: Live, st: State): State {
    var ps := Filter(LiveProvider(live), st.providers);
    State(Filter(KeepsAtStartup(ProviderIds(ps), LiveIngresses(ns, live)), st.rules), ps)
  }

  /** From any contents the startup pass leaves no dangling rule, and no rule on
      an ingress that is not one of a live route's. */
  lemma CleanupEstablishes(ns: Namespaces, live: Live, st: State)
    ensures NoDangling(Cleanup(ns, live, st))
    ensures forall r :: r in Cleanup(ns, live, st).rules && Ingresses(r) != [] ==>
      exists id :: id in live.routes && RouteTouches(ns, id)(r)
  {
    var out := Cleanup(ns, live, st);
    forall r | r in out.rules
      ensures !Dangling(r, out.providers)
      ensures Ingresses(r) != [] ==> exists id :: id in live.routes && RouteTouches(ns, id)(r)
    {
      CleanupRules(ns, live, st, r);
    }
  }

  lemma ModelKeptWhileLive(live: Live, n: nat)
    ensures ModelProviderId(n) in IdsToKeep(live) <==> n in live.models
  {
    forall k ensures ModelProviderId(n) != ProviderRegistryName(k) && ModelProviderId(n) != LegacyRouteProviderId(k) {
      assert ModelProviderId(n)[0] == 'g' && ProviderRegistryName(k)[0] == 'p' && LegacyRouteProviderId(k)[0] == 'a';
    }
    if ModelProviderId(n) in IdsToKeep(live) {
      var m :| m in live.models && ModelProviderId(n) == ModelProviderId(m);
      ProviderIdInjective(n, m);
    }
  }

  lemma ProviderKeptWhileLive(live: Live, n: nat)
    ensures ProviderRegistryName(n) in IdsToKeep(live) <==> n in live.providers
  {
    forall k ensures ProviderRegistryName(n) != ModelProviderId(k) && ProviderRegistryName(n) != LegacyRouteProviderId(k) {
      assert ModelProviderId(k)[0] == 'g' && ProviderRegistryName(n)[0] == 'p' && LegacyRouteProviderId(k)[0] == 'a';
    }
    if ProviderRegistryName(n) in IdsToKeep(live) {
      var m :| m in live.providers && ProviderRegistryName(n) == ProviderRegistryName(m);
      NumberedInjective(PROVIDER_PREFIX, n, m);
    }
  }

  lemma LegacyKeptWhileLive(live: Live, n: nat)
    ensures LegacyRouteProviderId(n) in IdsToKeep(live) <==> n in live.routes
  {
    forall k ensures LegacyRouteProviderId(n) != ModelProviderId(k) && LegacyRouteProviderId(n) != ProviderRegistryName(k) {
      assert ModelProviderId(k)[0] == 'g' && ProviderRegistryName(k)[0] == 'p' && LegacyRouteProviderId(n)[0] == 'a';
    }
    if LegacyRouteProviderId(n) in IdsToKeep(live) {
      var m :| m in live.routes && LegacyRouteProviderId(n) == LegacyRouteProviderId(m);
      NumberedInjective(ROUTE_PREFIX, n, m);
    }
  }

  /** The three kinds of ids never collide, so an id is kept exactly while the
      deployment, external provider or route it was made for is live, whatever
      else shares its number. */
  lemma KeptWhileLive(live: Live, n: nat)
    ensures ModelProviderId(n) in IdsToKeep(live) <==> n in live.models
    ensures ProviderRegistryName(n) in IdsToKeep(live) <==> n in live.providers
    ensures LegacyRouteProviderId(n) in IdsToKeep(live) <==> n in live.routes
  {
    ModelKeptWhileLive(live, n);
    ProviderKeptWhileLive(live, n);
    LegacyKeptWhileLive(live, n);
  }

  lemma NumberedInjective(prefix: string, a: nat, b: nat)
    requires prefix + Decimal(a) == prefix + Decimal(b)
    ensures a == b
  {
    DropPrefix(prefix, Decimal(a));
    DropPrefix(prefix, Decimal(b));
    ValueOfDecimal(a);
    ValueOfDecimal(b);
  }

  /** The providers the startup pass keeps are those with such an id. */
  lemma CleanupProviders(ns: Namespaces, live: Live, st: State, p: Provider)
    ensures p in Cleanup(ns, live, st).providers <==> p in st.providers && p.id.Some? && p.id.value in IdsToKeep(live)
  {
    FilterMember(LiveProvider(live), st.providers, p);
    if p.id == Some("") {
      forall m ensures ModelProviderId(m) != "" && ProviderRegistryName(m) != "" && LegacyRouteProviderId(m) != "" {}
    }
  }

  lemma CleanupIds(ns: Namespaces, live: Live, st: State, id: string)
    ensures id in ProviderIds(Cleanup(ns, live, st).providers) <==> id in ProviderIds(st.providers) && id in IdsToKeep(live)
  {
    if id in ProviderIds(st.providers) {
      var p :| p in st.providers && p.id == Some(id);
      CleanupProviders(ns, live, st, p);
    }
    forall p | p in Cleanup(ns, live, st).providers && p.id == Some(id) ensures p in st.providers && id in IdsToKeep(live) {
      CleanupProviders(ns, live, st, p);
    }
  }

  lemma CleanupEntries(ns: Namespaces, live: Live, st: State, id: string)
    requires id != "" && id in IdsToKeep(live)
    ensures Entries(Cleanup(ns, live, st).providers, id) == Entries(st.providers, id)
  {
    FilterSwap(HasKey(ProviderKey(), [id]), LiveProvider(live), st.providers);
    EntriesHaveId(st.providers, id);
    FilterAll(LiveProvider(live), Entries(st.providers, id));
  }

  lemma LiveIngressTouched(ns: Namespaces, live: Live, r: Rule)
    ensures Touches(LiveIngresses(ns, live), r) <==> exists id :: id in live.routes && RouteTouches(ns, id)(r)
  {
    if id :| id in live.routes && RouteTouches(ns, id)(r) {
      var i :| i in Ingresses(r) && i in RouteIngresses(ns, id);
      assert i in LiveIngresses(ns, live);
    }
    if Touches(LiveIngresses(ns, live), r) {
      var i :| i in Ingresses(r) && i in LiveIngresses(ns, live);
      var id :| id in live.routes && i in RouteIngresses(ns, id);
      assert RouteTouches(ns, id)(r);
    }
  }

  /** The rules it keeps are those that point at a provider that is kept and name
      no ingress, or some ingress of a live route. */
  lemma CleanupRules(ns: Namespaces, live: Live, st: State, r: Rule)
    ensures r in Cleanup(ns, live, st).rules <==>
      r in st.rules && RuleProviderId(r).Some? && RuleProviderId(r).value in ProviderIds(Cleanup(ns, live, st).providers) &&
      (Ingresses(r) == [] || exists id :: id in live.routes && RouteTouches(ns, id)(r))
  {
    FilterMember(KeepsAtStartup(ProviderIds(Cleanup(ns, live, st).providers), LiveIngresses(ns, live)), st.rules, r);
    LiveIngressTouched(ns, live, r);
  }

  // ----- steps and lifetimes -----------------------------------------------

  datatype Event = Sync(op: Op) | Restart(live: Live)

  function Next(ns: Namespaces, st: State, e: Event): State {
    match e
    case Sync(op) => Merge(DesiredOf(ns, op), st)
    case Restart(live) => Cleanup(ns, live, st)
  }

  function EventStep(ns: Namespaces): (State, Event) -> State { (st, e) => Next(ns, st, e) }

  function Lifetime(ns: Namespaces, st: State, events: seq<Event>): State {
    Traces.Run(EventStep(ns), st, events)
  }

  lemma LifetimeSnoc(ns: Namespaces, st: State, events: seq<Event>)
    requires events != []
    ensures Lifetime(ns, st, events) == Next(ns, Lifetime(ns, st, events[..|events| - 1]), events[|events| - 1])
  {
    var front, last := events[..|events| - 1], [events[|events| - 1]];
    assert events == front + last;
    Traces.RunConcat(EventStep(ns), st, front, last);
    var mid := Lifetime(ns, st, front);
    assert last[1..] == [];
    assert Traces.Run(EventStep(ns), mid, last) == EventStep(ns)(mid, last[0]);
  }

  // ----- no dangling rules, and what is left to collect --------------------

  /** Over every lifetime: once nothing dangles, or once the server has restarted,
      no rule ever dangles; and after every reconcile nothing is left to
      collect. */
  lemma {:induction false} RunSafety(ns: Namespaces, st: State, events: seq<Event>)
    requires NoDangling(st) || exists live :: Restart(live) in events
    ensures NoDangling(Lifetime(ns, st, events))
    ensures events != [] && events[|events| - 1].Sync? ==> Collected(Lifetime(ns, st, events))
    decreases |events|
  {
    if events != [] {
      var front, last := events[..|events| - 1], events[|events| - 1];
      assert events == front + [last];
      LifetimeSnoc(ns, st, events);
      match last {
        case Sync(op) =>
          RunSafety(ns, st, front);
          DesiredWellFormed(ns, op);
          MergeKeepsNoDangling(DesiredOf(ns, op), Lifetime(ns, st, front));
          MergeCollects(DesiredOf(ns, op), Lifetime(ns, st, front));
        case Restart(live) =>
          CleanupEstablishes(ns, live, Lifetime(ns, st, front));
      }
    }
  }

  /** The rule is one that a startup pass leaves if it leaves its provider. */
  ghost predicate OnLiveRoute(ns: Namespaces, live: Live, r: Rule) {
    Ingresses(r) == [] || exists id :: id in live.routes && RouteTouches(ns, id)(r)
  }

  /** A restart does not collect by itself. It leaves nothing to collect exactly if
      each live collectable provider was named by a rule without ingress or on
      an ingress of a live route. */
  lemma CollectedAfterRestartIff(ns: Namespaces, live: Live, st: State)
    ensures Collected(Cleanup(ns, live, st)) <==>
      forall p :: p in st.providers && p.id.Some? && Collectable(p.id.value) && p.id.value in IdsToKeep(live) ==>
        exists r :: r in st.rules && RuleProviderId(r) == p.id && OnLiveRoute(ns, live, r)
  {
    var out := Cleanup(ns, live, st);
    forall p | p in out.providers && p.id.Some?
      ensures p.id.value in Referenced(out.rules) <==>
        exists r :: r in st.rules && RuleProviderId(r) == p.id && OnLiveRoute(ns, live, r)
    {
      forall r ensures r in out.rules && RuleProviderId(r) == p.id <==>
          r in st.rules && RuleProviderId(r) == p.id && OnLiveRoute(ns, live, r)
      {
        CleanupRules(ns, live, st, r);
      }
      CleanupProviders(ns, live, st, p);
    }
    forall p ensures p in out.providers <==> p in st.providers && p.id.Some? && p.id.value in IdsToKeep(live) {
      CleanupProviders(ns, live, st, p);
    }
  }

  /** For instance, a route deleted while the server was down, whose deployment
      lives on: the restart drops its rule and keeps the provider, which then
      waits for the next reconcile of any route. */
  lemma RestartLeavesUncollected(ns: Namespaces)
    ensures var st := Lifetime(ns, State([], []), [Sync(RouteSync(1, [Group(5, [], {"s"}, {}, false)]))]);
      Collected(st) && !Collected(Cleanup(ns, Live({5}, {}, {}), st))
  {
    var g := Group(5, [], {"s"}, {}, false);
    var gs := [g];
    var events := [Sync(RouteSync(1, gs))];
    var st := Lifetime(ns, State([], []), events);
    RunSafety(ns, State([], []), events);
    LifetimeSnoc(ns, State([], []), events);
    assert events[..0] == [] && g in gs;
    var d, live := RouteDesired(ns, 1, gs), Live({5}, {}, {});
    RouteExpects(ns, 1, gs, ModelProviderId(5));
    var p :| p in d.providers && p.id == Some(ModelProviderId(5));
    MergedProvider(d, Referenced(st.rules), [], p);
    ModelKeptWhileLive(live, 5);
    ProviderIdKinds(5, 0);
    forall r | r in st.rules ensures !OnLiveRoute(ns, live, r) {
      MergedRule(d, [], r);
      RouteRuleForm(ns, 1, gs, r);
    }
    CollectedAfterRestartIff(ns, live, st);
  }

  // ----- what a route's reconcile leaves for good --------------------------

  /** The groups of the route's latest reconcile. */
  function Latest(events: seq<Event>, routeId: nat): Option<seq<Group>> {
    if events == [] then None
    else match events[|events| - 1]
      case Sync(RouteSync(id, groups)) => if id == routeId then Some(groups) else Latest(events[..|events| - 1], routeId)
      case _ => Latest(events[..|events| - 1], routeId)
  }

  /** Every restart since the route's latest reconcile found both the route and
      the deployment live. */
  predicate SeenLive(events: seq<Event>, routeId: nat, modelId: nat) {
    events == [] ||
    match events[|events| - 1]
    case Sync(RouteSync(id, _)) => id == routeId || SeenLive(events[..|events| - 1], routeId, modelId)
    case Sync(ProviderSync(_)) => SeenLive(events[..|events| - 1], routeId, modelId)
    case Restart(live) => routeId in live.routes && modelId in live.models && SeenLive(events[..|events| - 1], routeId, modelId)
  }

  ghost predicate RuleSeenLive(events: seq<Event>, routeId: nat, r: Rule) {
    exists m :: RuleProviderId(r) == Some(ModelProviderId(m)) && SeenLive(events, routeId, m)
  }

  ghost function StillLive(events: seq<Event>, routeId: nat): Rule -> bool {
    (r: Rule) => RuleSeenLive(events, routeId, r)
  }

  /** The route's latest rules, without those of deployments that a restart since
      has found gone. */
  ghost function LatestRules(ns: Namespaces, events: seq<Event>, id: nat): seq<Rule>
    requires Latest(events, id).Some?
  {
    Filter(StillLive(events, id), Sort(RuleKey(), RouteRules(ns, id, Latest(events, id).value)))
  }

  /** What stands of a route: on its ingresses exactly its latest rules, in order,
      and the provider of each of them. */
  ghost predicate RouteStands(ns: Namespaces, st: State, events: seq<Event>, id: nat)
    requires Latest(events, id).Some?
  {
    && Filter(RouteTouches(ns, id), st.rules) == LatestRules(ns, events, id)
    && forall r :: r in LatestRules(ns, events, id) ==>
         RuleProviderId(r).Some? && RuleProviderId(r).value in ProviderIds(st.providers)
  }

  lemma LatestRule(ns: Namespaces, events: seq<Event>, id: nat, r: Rule)
    requires Latest(events, id).Some?
    ensures r in LatestRules(ns, events, id) <==>
      r in RouteRules(ns, id, Latest(events, id).value) && RuleSeenLive(events, id, r)
  {
    var s := Sort(RuleKey(), RouteRules(ns, id, Latest(events, id).value));
    SortMembers(RuleKey(), RouteRules(ns, id, Latest(events, id).value));
    FilterMember(StillLive(events, id), s, r);
  }

  lemma OwnSyncStands(ns: Namespaces, st: State, events: seq<Event>, id: nat)
    requires events != [] && events[|events| - 1].Sync? && OwnerOf()(events[|events| - 1].op) == Route(id)
    ensures RouteStands(ns, Next(ns, st, events[|events| - 1]), events, id)
  {
    var groups := events[|events| - 1].op.groups;
    var d, f := RouteDesired(ns, id, groups), RouteTouches(ns, id);
    RouteEntries(ns, id, groups);
    FilterReplace(f, RuleKey(), d.rules, KeepsRule(d), st.rules);
    RouteRulesTouchOnlyTheirOwn(ns, id, groups, id);
    FilterAll(f, d.rules);
    forall r | r in Filter(KeepsRule(d), st.rules) ensures !f(r) {
      FilterMember(KeepsRule(d), st.rules, r);
    }
    FilterNone(f, Filter(KeepsRule(d), st.rules));
    assert d.rules + [] == d.rules;
    SortMembers(RuleKey(), d.rules);
    forall r | r in d.rules ensures StillLive(events, id)(r) && RuleProviderId(r).value in ProviderIds(Merge(d, st).providers) {
      var m :| IsGroupRule(r, m, MainIngress(ns, id), FallbackIngress(ns, id));
      assert SeenLive(events, id, m);
      MergedRule(d, st.rules, r);
      IdStays(d, st.rules, st.providers, r);
    }
    FilterAll(StillLive(events, id), Sort(RuleKey(), d.rules));
  }

  lemma FilterSorted<T>(f: T -> bool, key: T -> Key, s: seq<T>)
    ensures Sorted(key, Filter(f, Sort(key, s)))
  {
    FilterSort(f, key, s);
    SortSorted(key, Filter(f, s));
  }

  /** A step of another owner keeps any sorted list of a route's rules. */
  lemma StepKeepsOtherRoutes(ns: Namespaces, id: nat, groups: seq<Group>, op: Op, rules: seq<Rule>, own: seq<Rule>)
    requires OwnerOf()(op) != Route(id) && Filter(RouteTouches(ns, id), rules) == own
    requires Sorted(RuleKey(), own) && forall r :: r in own ==> r in RouteRules(ns, id, groups)
    ensures Filter(RouteTouches(ns, id), MergeRules(DesiredOf(ns, op), rules)) == own
  {
    var d, f := DesiredOf(ns, op), RouteTouches(ns, id);
    FilterReplace(f, RuleKey(), d.rules, KeepsRule(d), rules);
    FilterSwap(f, KeepsRule(d), rules);
    match op {
      case RouteSync(j, gs) =>
        RouteRulesTouchOnlyTheirOwn(ns, j, gs, id);
        RoutesIndependent(ns, id, groups, j, gs);
      case ProviderSync(ps) =>
        ProviderEntries(ps);
        RouteProvidersIndependent(ns, id, groups, ps);
    }
    FilterNone(f, d.rules);
    FilterAll(KeepsRule(d), own);
    assert [] + own == own;
    SortOfSorted(RuleKey(), own);
  }

  lemma OtherSyncStands(ns: Namespaces, st: State, events: seq<Event>, id: nat)
    requires events != [] && events[|events| - 1].Sync? && OwnerOf()(events[|events| - 1].op) != Route(id)
    requires Latest(events, id).Some? && RouteStands(ns, st, events[..|events| - 1], id)
    ensures RouteStands(ns, Next(ns, st, events[|events| - 1]), events, id)
  {
    var op, front := events[|events| - 1].op, events[..|events| - 1];
    var groups := Latest(events, id).value;
    var own := LatestRules(ns, front, id);
    var s := Sort(RuleKey(), RouteRules(ns, id, groups));
    forall r ensures StillLive(events, id)(r) == StillLive(front, id)(r) {
      assert forall m :: SeenLive(events, id, m) == SeenLive(front, id, m);
    }
    FilterAgree(StillLive(events, id), StillLive(front, id), s);
    FilterSorted(StillLive(front, id), RuleKey(), RouteRules(ns, id, groups));
    forall r | r in own ensures r in RouteRules(ns, id, groups) {
      LatestRule(ns, front, id, r);
    }
    StepKeepsOtherRoutes(ns, id, groups, op, st.rules, own);
    DesiredWellFormed(ns, op);
    forall r | r in own ensures RuleProviderId(r).value in ProviderIds(Next(ns, st, Sync(op)).providers) {
      FilterMember(RouteTouches(ns, id), MergeRules(DesiredOf(ns, op), st.rules), r);
      IdStays(DesiredOf(ns, op), st.rules, st.providers, r);
    }
  }

  /** What a startup pass does with a rule of a route whose provider stands. */
  lemma RestartKeepsRuleIff(ns: Namespaces, live: Live, st: State, id: nat, groups: seq<Group>, m: nat, r: Rule)
    requires r in st.rules && r in RouteRules(ns, id, groups) && RuleProviderId(r) == Some(ModelProviderId(m))
    requires ModelProviderId(m) in ProviderIds(st.providers)
    ensures KeepsAtStartup(ProviderIds(Cleanup(ns, live, st).providers), LiveIngresses(ns, live))(r) <==>
      id in live.routes && m in live.models
  {
    ModelKeptWhileLive(live, m);
    CleanupIds(ns, live, st, ModelProviderId(m));
    LiveIngressTouched(ns, live, r);
    RouteRuleForm(ns, id, groups, r);
    RouteRulesTouchOnlyTheirOwn(ns, id, groups, id);
    forall other | RouteTouches(ns, other)(r) ensures other == id {
      RouteRulesTouchOnlyTheirOwn(ns, id, groups, other);
    }
  }

  lemma RestartRuleSeen(ns: Namespaces, st: State, events: seq<Event>, id: nat, r: Rule)
    requires events != [] && events[|events| - 1].Restart?
    requires Latest(events, id).Some? && RouteStands(ns, st, events[..|events| - 1], id)
    requires r in RouteRules(ns, id, Latest(events, id).value)
    ensures var live := events[|events| - 1].live;
      var keeps := KeepsAtStartup(ProviderIds(Cleanup(ns, live, st).providers), LiveIngresses(ns, live));
      StillLive(events, id)(r) == (keeps(r) && StillLive(events[..|events| - 1], id)(r))
  {
    var live, front := events[|events| - 1].live, events[..|events| - 1];
    var groups := Latest(events, id).value;
    if RuleSeenLive(front, id, r) {
      LatestRule(ns, front, id, r);
      FilterMember(RouteTouches(ns, id), st.rules, r);
      var m :| RuleProviderId(r) == Some(ModelProviderId(m)) && SeenLive(front, id, m);
      RestartKeepsRuleIff(ns, live, st, id, groups, m, r);
      forall n | ModelProviderId(n) == ModelProviderId(m) ensures n == m {
        ProviderIdInjective(n, m);
      }
      assert RuleSeenLive(events, id, r) <==> SeenLive(events, id, m);
    } else {
      assert forall m :: SeenLive(events, id, m) ==> SeenLive(front, id, m);
    }
  }

  lemma RestartKeepsLatestRules(ns: Namespaces, st: State, events: seq<Event>, id: nat)
    requires events != [] && events[|events| - 1].Restart?
    requires Latest(events, id).Some? && RouteStands(ns, st, events[..|events| - 1], id)
    ensures Filter(RouteTouches(ns, id), Cleanup(ns, events[|events| - 1].live, st).rules) == LatestRules(ns, events, id)
  {
    var live, front := events[|events| - 1].live, events[..|events| - 1];
    var keeps := KeepsAtStartup(ProviderIds(Cleanup(ns, live, st).providers), LiveIngresses(ns, live));
    var rules := RouteRules(ns, id, Latest(events, id).value);
    SortMembers(RuleKey(), rules);
    forall r | r in Sort(RuleKey(), rules) ensures StillLive(events, id)(r) == (keeps(r) && StillLive(front, id)(r)) {
      RestartRuleSeen(ns, st, events, id, r);
    }
    FilterFurther(RouteTouches(ns, id), keeps, st.rules, StillLive(front, id), StillLive(events, id), Sort(RuleKey(), rules));
  }

  lemma RestartStands(ns: Namespaces, st: State, events: seq<Event>, id: nat)
    requires events != [] && events[|events| - 1].Restart?
    requires Latest(events, id).Some? && RouteStands(ns, st, events[..|events| - 1], id)
    ensures RouteStands(ns, Next(ns, st, events[|events| - 1]), events, id)
  {
    var out := Cleanup(ns, events[|events| - 1].live, st);
    RestartKeepsLatestRules(ns, st, events, id);
    forall r | r in LatestRules(ns, events, id)
      ensures RuleProviderId(r).Some? && RuleProviderId(r).value in ProviderIds(out.providers)
    {
      LatestRule(ns, events, id, r);
      RestartRuleSeen(ns, st, events, id, r);
    }
  }

  /** After any lifetime, from any start, there stand on a route's ingresses
      exactly the rules of its latest reconcile, less those of deployments a
      restart since has found gone, or all of them if it found the route gone;
      and every provider they name stands, whatever the others did. */
  lemma {:induction false} RunKeepsLatest(ns: Namespaces, st: State, events: seq<Event>, id: nat)
    requires Latest(events, id).Some?
    ensures RouteStands(ns, Lifetime(ns, st, events), events, id)
    decreases |events|
  {
    var last, front := events[|events| - 1], events[..|events| - 1];
    var before := Lifetime(ns, st, front);
    LifetimeSnoc(ns, st, events);
    if last.Sync? && OwnerOf()(last.op) == Route(id) {
      OwnSyncStands(ns, before, events, id);
    } else {
      RunKeepsLatest(ns, st, front, id);
      if last.Sync? {
        OtherSyncStands(ns, before, events, id);
      } else {
        RestartStands(ns, before, events, id);
      }
    }
  }

  /** So restarts leave a route alone, its rules exactly the latest, if and only if
      each restart since its latest reconcile found it live, and live every
      deployment it serves. */
  lemma RouteUndisturbedIff(ns: Namespaces, st: State, events: seq<Event>, id: nat)
    requires Latest(events, id).Some?
    ensures Filter(RouteTouches(ns, id), Lifetime(ns, st, events).rules) == Sort(RuleKey(), RouteRules(ns, id, Latest(events, id).value))
      <==> forall g :: g in Latest(events, id).value && Serves(g) ==> SeenLive(events, id, g.modelId)
  {
    var groups := Latest(events, id).value;
    RunKeepsLatest(ns, st, events, id);
    if forall g :: g in groups && Serves(g) ==> SeenLive(events, id, g.modelId) {
      AllSeenLive(ns, events, id);
    }
    if LatestRules(ns, events, id) == Sort(RuleKey(), RouteRules(ns, id, groups)) {
      SortMembers(RuleKey(), RouteRules(ns, id, groups));
      forall g | g in groups && Serves(g) ensures SeenLive(events, id, g.modelId) {
        var r := RuleOfGroup(ns, id, groups, g);
        LatestRule(ns, events, id, r);
        var m :| RuleProviderId(r) == Some(ModelProviderId(m)) && SeenLive(events, id, m);
        ProviderIdInjective(m, g.modelId);
      }
    }
  }

  lemma AllSeenLive(ns: Namespaces, events: seq<Event>, id: nat)
    requires Latest(events, id).Some?
    requires forall g :: g in Latest(events, id).value && Serves(g) ==> SeenLive(events, id, g.modelId)
    ensures LatestRules(ns, events, id) == Sort(RuleKey(), RouteRules(ns, id, Latest(events, id).value))
  {
    var groups := Latest(events, id).value;
    var s := Sort(RuleKey(), RouteRules(ns, id, groups));
    SortMembers(RuleKey(), RouteRules(ns, id, groups));
    forall r | r in s ensures StillLive(events, id)(r) {
      RouteRulesIff(ns, id, groups, r);
      var g :| g in groups && FromGroup(r, g, MainIngress(ns, id), FallbackIngress(ns, id));
      assert RuleProviderId(r) == Some(ModelProviderId(g.modelId));
    }
    FilterAll(StillLive(events, id), s);
  }

  lemma RuleOfGroup(ns: Namespaces, id: nat, groups: seq<Group>, g: Group) returns (r: Rule)
    requires g in groups && Serves(g)
    ensures r in RouteRules(ns, id, groups) && RuleProviderId(r) == Some(ModelProviderId(g.modelId))
  {
    var onMain := g.services != {};
    var ingress := if onMain then MainIngress(ns, id) else FallbackIngress(ns, id);
    var services := if onMain then g.services else g.fallbackServices;
    r := GroupRule(g, ingress, services)[0];
    GroupRuleIff(g, ingress, services, r);
    assert FromGroup(r, g, MainIngress(ns, id), FallbackIngress(ns, id));
    RouteRulesIff(ns, id, groups, r);
  }

  // ----- which entry a provider has ----------------------------------------

  predicate Wants(ns: Namespaces, e: Event, id: string) {
    e.Sync? && id in ExpectedIds(DesiredOf(ns, e.op).providers)
  }

  /** The last reconcile that wanted the provider. */
  function LastWanting(ns: Namespaces, events: seq<Event>, id: string): Option<Op> {
    if events == [] then None
    else if Wants(ns, events[|events| - 1], id) then Some(events[|events| - 1].op)
    else LastWanting(ns, events[..|events| - 1], id)
  }

  lemma QuietStepKeepsEntries(ns: Namespaces, st: State, op: Op, m: nat, r: Rule)
    requires ModelProviderId(m) !in ExpectedIds(DesiredOf(ns, op).providers)
    requires r in Merge(DesiredOf(ns, op), st).rules && RuleProviderId(r) == Some(ModelProviderId(m))
    ensures Entries(Merge(DesiredOf(ns, op), st).providers, ModelProviderId(m)) == Entries(st.providers, ModelProviderId(m))
  {
    ProviderIdKinds(m, 0);
    DesiredWellFormed(ns, op);
    EntriesAfterMerge(DesiredOf(ns, op), st, ModelProviderId(m));
  }

  /** After any lifetime, from any start, the provider of a deployment that a route
      serves and the restarts since have found live has exactly the entry of
      the last reconcile, of any route, that wanted it. */
  lemma {:induction false} ProviderIsLastWanted(ns: Namespaces, st: State, events: seq<Event>, routeId: nat, g: Group)
    requires Latest(events, routeId).Some? && g in Latest(events, routeId).value && Serves(g)
    requires SeenLive(events, routeId, g.modelId)
    ensures var id := ModelProviderId(g.modelId);
      && LastWanting(ns, events, id).Some?
      && Entries(Lifetime(ns, st, events).providers, id) == Entries(DesiredOf(ns, LastWanting(ns, events, id).value).providers, id)
    decreases |events|
  {
    var id := ModelProviderId(g.modelId);
    var last, front := events[|events| - 1], events[..|events| - 1];
    var before := Lifetime(ns, st, front);
    LifetimeSnoc(ns, st, events);
    if last.Sync? && OwnerOf()(last.op) == Route(routeId) {
      RouteExpects(ns, routeId, last.op.groups, id);
    }
    if Wants(ns, last, id) {
      DesiredWellFormed(ns, last.op);
      EntriesAfterMerge(DesiredOf(ns, last.op), before, id);
    } else {
      ProviderIsLastWanted(ns, st, front, routeId, g);
      match last {
        case Sync(op) =>
          var r := StandingRule(ns, st, events, routeId, g);
          QuietStepKeepsEntries(ns, before, op, g.modelId, r);
        case Restart(live) =>
          ModelKeptWhileLive(live, g.modelId);
          CleanupEntries(ns, live, before, id);
      }
    }
  }

  lemma StandingRule(ns: Namespaces, st: State, events: seq<Event>, routeId: nat, g: Group) returns (r: Rule)
    requires Latest(events, routeId).Some? && g in Latest(events, routeId).value && Serves(g)
    requires SeenLive(events, routeId, g.modelId)
    ensures r in Lifetime(ns, st, events).rules && RuleProviderId(r) == Some(ModelProviderId(g.modelId))
  {
    r := RuleOfGroup(ns, routeId, Latest(events, routeId).value, g);
    assert RuleSeenLive(events, routeId, r);
    LatestRule(ns, events, routeId, r);
    RunKeepsLatest(ns, st, events, routeId);
    FilterMember(RouteTouches(ns, routeId), Lifetime(ns, st, events).rules, r);
  }

  /** So what a route's latest reconcile said about a deployment stands if and only
      if the last reconcile that wanted it, of any route, said the same: the
      same tokens, or none, and the same capabilities. */
  lemma RunKeepsLatestProvidersIff(ns: Namespaces, st: State, events: seq<Event>, routeId: nat, g: Group, other: nat, groups: seq<Group>, h: Group)
    requires Latest(events, routeId).Some? && g in Latest(events, routeId).value && Serves(g)
    requires SeenLive(events, routeId, g.modelId)
    requires LastWanting(ns, events, ModelProviderId(g.modelId)) == Some(RouteSync(other, groups))
    requires DistinctModels(groups) && h in groups && Serves(h) && h.modelId == g.modelId
    ensures Says(Entries(Lifetime(ns, st, events).providers, ModelProviderId(g.modelId)), h)
    ensures Says(Entries(Lifetime(ns, st, events).providers, ModelProviderId(g.modelId)), g) <==>
      g.apiTokens == h.apiTokens && g.nativeAnthropic == h.nativeAnthropic
  {
    ProviderIsLastWanted(ns, st, events, routeId, g);
    RouteEntriesFor(ns, other, groups, h);
  }

  /** In particular it stands while the deployments keep what they carry. */
  lemma RunKeepsLatestProviders(ns: Namespaces, st: State, events: seq<Event>, routeId: nat, g: Group, deployments: nat -> Deployment)
    requires Latest(events, routeId).Some? && g in Latest(events, routeId).value && Serves(g)
    requires SeenLive(events, routeId, g.modelId)
    requires forall e :: e in events && e.Sync? && e.op.RouteSync? ==> Reflects(deployments, e.op.groups)
    ensures Says(Entries(Lifetime(ns, st, events).providers, ModelProviderId(g.modelId)), g)
  {
    ProviderIsLastWanted(ns, st, events, routeId, g);
    var id := ModelProviderId(g.modelId);
    LastWantingStep(ns, events, id);
    var op := LastWanting(ns, events, id).value;
    LatestStep(events, routeId);
    match op {
      case RouteSync(other, groups) =>
        RouteExpects(ns, other, groups, id);
        var h :| h in groups && Serves(h) && id == ModelProviderId(h.modelId);
        ProviderIdInjective(h.modelId, g.modelId);
        RouteEntriesFor(ns, other, groups, h);
      case ProviderSync(ps) =>
        ProviderIdKinds(g.modelId, 0);
        ProviderEntries(ps);
        assert false;
    }
  }

  lemma {:induction false} LastWantingStep(ns: Namespaces, events: seq<Event>, id: string)
    requires LastWanting(ns, events, id).Some?
    ensures Sync(LastWanting(ns, events, id).value) in events && Wants(ns, Sync(LastWanting(ns, events, id).value), id)
  {
    if !Wants(ns, events[|events| - 1], id) {
      LastWantingStep(ns, events[..|events| - 1], id);
    }
  }

  lemma {:induction false} LatestStep(events: seq<Event>, routeId: nat)
    requires Latest(events, routeId).Some?
    ensures Sync(RouteSync(routeId, Latest(events, routeId).value)) in events
  {
    var last := events[|events| - 1];
    if !(last.Sync? && last.op.RouteSync? && last.op.routeId == routeId) {
      LatestStep(events[..|events| - 1], routeId);
    }
  }

  // ----- what stands of the external providers -----------------------------

  /** The external providers of the latest provider reconcile. */
  function LatestProviders(events: seq<Event>): Option<seq<ExternalProvider>> {
    if events == [] then None
    else match events[|events| - 1]
      case Sync(ProviderSync(ps)) => Some(ps)
      case _ => LatestProviders(events[..|events| - 1])
  }

  /** Every restart since then found the external provider live. */
  predicate ProviderSeenLive(events: seq<Event>, n: nat) {
    events == [] ||
    match events[|events| - 1]
    case Sync(ProviderSync(_)) => true
    case Sync(RouteSync(_, _)) => ProviderSeenLive(events[..|events| - 1], n)
    case Restart(live) => n in live.providers && ProviderSeenLive(events[..|events| - 1], n)
  }

  function IsExternal(): Rule -> bool {
    (r: Rule) => RuleProviderId(r).Some? && StartsWith(RuleProviderId(r).value, PROVIDER_PREFIX)
  }

  ghost function ExternalStillLive(events: seq<Event>): Rule -> bool {
    (r: Rule) => exists n :: RuleProviderId(r) == Some(ProviderRegistryName(n)) && ProviderSeenLive(events, n)
  }

  /** The rules of the latest provider reconcile, without those of providers that a
      restart since has found gone. */
  ghost function LatestExternalRules(events: seq<Event>): seq<Rule>
    requires LatestProviders(events).Some?
  {
    Filter(ExternalStillLive(events), Sort(RuleKey(), ProvidersDesired(LatestProviders(events).value).rules))
  }

  /** After any lifetime, from any start, what stands under the id of an external
      provider is exactly what the latest provider reconcile wants there, and
      nothing if a restart since has found the provider gone. */
  lemma {:induction false} ExternalEntriesAre(ns: Namespaces, st: State, events: seq<Event>, n: nat)
    requires LatestProviders(events).Some?
    ensures Entries(Lifetime(ns, st, events).providers, ProviderRegistryName(n)) ==
      if ProviderSeenLive(events, n) then Entries(ProvidersDesired(LatestProviders(events).value).providers, ProviderRegistryName(n)) else []
    decreases |events|
  {
    var last, front := events[|events| - 1], events[..|events| - 1];
    var before, id := Lifetime(ns, st, front), ProviderRegistryName(n);
    LifetimeSnoc(ns, st, events);
    ProviderIdKinds(0, n);
    assert id != "";
    match last {
      case Sync(ProviderSync(ps)) =>
        ProviderEntries(ps);
        EntriesAfterMerge(ProvidersDesired(ps), before, id);
        if id !in ExpectedIds(ProvidersDesired(ps).providers) {
          NotExpectedNoEntries(ProvidersDesired(ps).providers, id);
        }
      case Sync(RouteSync(routeId, groups)) =>
        ExternalEntriesAre(ns, st, front, n);
        RouteEntries(ns, routeId, groups);
        RouteExpects(ns, routeId, groups, id);
        EntriesAfterMerge(RouteDesired(ns, routeId, groups), before, id);
        forall k ensures ModelProviderId(k) != id { ProviderIdKinds(k, n); }
      case Restart(live) =>
        ExternalEntriesAre(ns, st, front, n);
        ProviderKeptWhileLive(live, n);
        if n in live.providers {
          CleanupEntries(ns, live, before, id);
        } else {
          GoneNoEntries(ns, live, before, id);
        }
    }
  }

  lemma NotExpectedNoEntries(ps: seq<Provider>, id: string)
    requires id != "" && id !in ExpectedIds(ps)
    ensures Entries(ps, id) == []
  {
    FilterNone(HasKey(ProviderKey(), [id]), ps);
  }

  lemma GoneNoEntries(ns: Namespaces, live: Live, st: State, id: string)
    requires id != "" && id !in IdsToKeep(live)
    ensures Entries(Cleanup(ns, live, st).providers, id) == []
  {
    var ps := Cleanup(ns, live, st).providers;
    forall p | p in ps ensures p.id != Some(id) {
      CleanupProviders(ns, live, st, p);
    }
    FilterNone(HasKey(ProviderKey(), [id]), ps);
  }

  /** The provider of a rule of the latest provider reconcile that is still live
      stands. */
  lemma ExternalProviderStands(ns: Namespaces, st: State, events: seq<Event>, r: Rule, n: nat)
    requires LatestProviders(events).Some? && r in ProvidersDesired(LatestProviders(events).value).rules
    requires RuleProviderId(r) == Some(ProviderRegistryName(n)) && ProviderSeenLive(events, n)
    ensures ProviderRegistryName(n) in ProviderIds(Lifetime(ns, st, events).providers)
  {
    var d, id, now := ProvidersDesired(LatestProviders(events).value), ProviderRegistryName(n), Lifetime(ns, st, events).providers;
    ProviderEntries(LatestProviders(events).value);
    var p :| p in d.providers && p.id == Some(id);
    ExternalEntriesAre(ns, st, events, n);
    FilterMember(HasKey(ProviderKey(), [id]), d.providers, p);
    FilterMember(HasKey(ProviderKey(), [id]), now, p);
  }

  lemma ProviderSyncSetsRules(st: State, ps: seq<ExternalProvider>, events: seq<Event>)
    requires events != [] && events[|events| - 1] == Sync(ProviderSync(ps))
    ensures Filter(IsExternal(), Merge(ProvidersDesired(ps), st).rules) == LatestExternalRules(events)
  {
    var d, f := ProvidersDesired(ps), IsExternal();
    ProviderEntries(ps);
    FilterReplace(f, RuleKey(), d.rules, KeepsRule(d), st.rules);
    SortMembers(RuleKey(), d.rules);
    forall r | r in d.rules ensures f(r) && ExternalStillLive(events)(r) {
      var n :| IsExternalRule(r, n);
      ProviderIdKinds(0, n);
      assert ProviderSeenLive(events, n);
    }
    FilterAll(f, d.rules);
    forall r | r in Filter(KeepsRule(d), st.rules) ensures !f(r) {
      FilterMember(KeepsRule(d), st.rules, r);
    }
    FilterNone(f, Filter(KeepsRule(d), st.rules));
    assert d.rules + [] == d.rules;
    FilterAll(ExternalStillLive(events), Sort(RuleKey(), d.rules));
  }

  lemma RouteSyncKeepsExternal(ns: Namespaces, st: State, routeId: nat, groups: seq<Group>, own: seq<Rule>)
    requires Filter(IsExternal(), st.rules) == own && Sorted(RuleKey(), own)
    requires forall r :: r in own ==> Ingresses(r) == []
    ensures Filter(IsExternal(), Merge(RouteDesired(ns, routeId, groups), st).rules) == own
  {
    var d, f := RouteDesired(ns, routeId, groups), IsExternal();
    RouteEntries(ns, routeId, groups);
    FilterReplace(f, RuleKey(), d.rules, KeepsRule(d), st.rules);
    FilterSwap(f, KeepsRule(d), st.rules);
    forall r | r in d.rules ensures !f(r) {
      var m :| IsGroupRule(r, m, MainIngress(ns, routeId), FallbackIngress(ns, routeId));
      ProviderIdKinds(m, 0);
    }
    FilterNone(f, d.rules);
    FilterAll(KeepsRule(d), own);
    assert [] + own == own;
    SortOfSorted(RuleKey(), own);
  }

  lemma RestartExternalRule(ns: Namespaces, st: State, events: seq<Event>, r: Rule)
    requires events != [] && events[|events| - 1].Restart? && LatestProviders(events).Some?
    requires r in ProvidersDesired(LatestProviders(events).value).rules
    ensures var front, live := events[..|events| - 1], events[|events| - 1].live;
      var keeps := KeepsAtStartup(ProviderIds(Cleanup(ns, live, Lifetime(ns, st, front)).providers), LiveIngresses(ns, live));
      ExternalStillLive(events)(r) == (keeps(r) && ExternalStillLive(front)(r))
  {
    var front, live := events[..|events| - 1], events[|events| - 1].live;
    ProviderEntries(LatestProviders(events).value);
    var n :| IsExternalRule(r, n);
    forall k | ProviderRegistryName(k) == ProviderRegistryName(n) ensures k == n {
      NumberedInjective(PROVIDER_PREFIX, k, n);
    }
    assert ExternalStillLive(events)(r) <==> ProviderSeenLive(events, n);
    assert ExternalStillLive(front)(r) <==> ProviderSeenLive(front, n);
    if ProviderSeenLive(front, n) {
      ExternalProviderStands(ns, st, front, r, n);
      CleanupIds(ns, live, Lifetime(ns, st, front), ProviderRegistryName(n));
      ProviderKeptWhileLive(live, n);
    }
  }

  /** And the rules that point at an external provider are exactly those of the
      latest provider reconcile, in order, less those of providers a restart
      since has found gone; whatever the routes did. */
  lemma {:induction false} ExternalRulesAre(ns: Namespaces, st: State, events: seq<Event>)
    requires LatestProviders(events).Some?
    ensures Filter(IsExternal(), Lifetime(ns, st, events).rules) == LatestExternalRules(events)
    decreases |events|
  {
    var last, front := events[|events| - 1], events[..|events| - 1];
    var before := Lifetime(ns, st, front);
    LifetimeSnoc(ns, st, events);
    if last.Sync? && last.op.ProviderSync? {
      ProviderSyncSetsRules(before, last.op.providers, events);
    } else {
      ExternalRulesAre(ns, st, front);
      var rules := ProvidersDesired(LatestProviders(events).value).rules;
      var s := Sort(RuleKey(), rules);
      SortMembers(RuleKey(), rules);
      match last {
        case Sync(op) =>
          assert forall n :: ProviderSeenLive(events, n) == ProviderSeenLive(front, n);
          FilterAgree(ExternalStillLive(events), ExternalStillLive(front), s);
          FilterSorted(ExternalStillLive(front), RuleKey(), rules);
          FilterMembers(ExternalStillLive(front), s);
          ProviderEntries(LatestProviders(events).value);
          RouteSyncKeepsExternal(ns, before, op.routeId, op.groups, LatestExternalRules(front));
        case Restart(live) =>
          var keeps := KeepsAtStartup(ProviderIds(Cleanup(ns, live, before).providers), LiveIngresses(ns, live));
          forall r | r in s ensures ExternalStillLive(events)(r) == (keeps(r) && ExternalStillLive(front)(r)) {
            RestartExternalRule(ns, st, events, r);
          }
          FilterFurther(IsExternal(), keeps, before.rules, ExternalStillLive(front), ExternalStillLive(events), s);
      }
    }
  }

  // ----- what stands until a route is replayed -----------------------------

  /** A rule of the start on a route's own ingresses, with its provider, such as a
      live route's rule of an older version, stands with that provider until
      the route itself reconciles, however often the server restarts before,
      as long as the restarts find the route and the provider live. */
  lemma {:induction false} StandsUntilReplayed(ns: Namespaces, st: State, events: seq<Event>, id: nat, r: Rule, provider: string)
    requires r in st.rules && RuleProviderId(r) == Some(provider) && provider in ProviderIds(st.providers)
    requires Ingresses(r) != [] && forall i :: i in Ingresses(r) ==> i in RouteIngresses(ns, id)
    requires Latest(events, id).None? && !StartsWith(provider, PROVIDER_PREFIX)
    requires forall live :: Restart(live) in events ==> id in live.routes && provider in IdsToKeep(live)
    ensures r in Lifetime(ns, st, events).rules && provider in ProviderIds(Lifetime(ns, st, events).providers)
    decreases |events|
  {
    if events != [] {
      var last, front := events[|events| - 1], events[..|events| - 1];
      assert events == front + [last];
      StandsUntilReplayed(ns, st, front, id, r, provider);
      LifetimeSnoc(ns, st, events);
      var before := Lifetime(ns, st, front);
      match last {
        case Sync(op) =>
          var d := DesiredOf(ns, op);
          assert !DropsRule(d, r) by {
            if op.RouteSync? { IngressNamesApart(ns, id, op.routeId); }
          }
          MergedRule(d, before.rules, r);
          DesiredWellFormed(ns, op);
          IdStays(d, before.rules, before.providers, r);
        case Restart(live) =>
          CleanupIds(ns, live, before, provider);
          CleanupRules(ns, live, before, r);
          assert Ingresses(r)[0] in Ingresses(r);
          assert RouteTouches(ns, id)(r);
      }
    }
  }

  // ----- startup convergence -----------------------------------------------

  /** A rule on some ingress after a lifetime either came with a route's reconcile
      or was there at the start, off every ingress reconciled since. */
  lemma {:induction false} WhereRulesComeFrom(ns: Namespaces, st: State, events: seq<Event>, r: Rule)
    requires r in Lifetime(ns, st, events).rules && Ingresses(r) != []
    ensures (exists id :: Latest(events, id).Some? && RouteTouches(ns, id)(r)) ||
      (r in st.rules && forall id :: Latest(events, id).Some? ==> !RouteTouches(ns, id)(r))
    decreases |events|
  {
    if events != [] {
      var last, front := events[|events| - 1], events[..|events| - 1];
      LifetimeSnoc(ns, st, events);
      var before := Lifetime(ns, st, front);
      if last.Restart? {
        CleanupRules(ns, last.live, before, r);
        WhereRulesComeFrom(ns, st, front, r);
        assert forall id :: Latest(front, id) == Latest(events, id);
      } else {
        MergedRule(DesiredOf(ns, last.op), before.rules, r);
        if r in DesiredOf(ns, last.op).rules {
          AddedByRoute(ns, events, r);
        } else {
          WhereRulesComeFrom(ns, st, front, r);
          PassedOver(ns, st, events, r);
        }
      }
    }
  }

  lemma AddedByRoute(ns: Namespaces, events: seq<Event>, r: Rule)
    requires events != [] && events[|events| - 1].Sync? && r in DesiredOf(ns, events[|events| - 1].op).rules && Ingresses(r) != []
    ensures exists id :: Latest(events, id).Some? && RouteTouches(ns, id)(r)
  {
    match events[|events| - 1].op {
      case RouteSync(id, groups) =>
        RouteRulesTouchOnlyTheirOwn(ns, id, groups, id);
        assert Latest(events, id).Some?;
      case ProviderSync(ps) =>
        ProviderEntries(ps);
        assert false;
    }
  }

  lemma PassedOver(ns: Namespaces, st: State, events: seq<Event>, r: Rule)
    requires events != [] && events[|events| - 1].Sync? && !DropsRule(DesiredOf(ns, events[|events| - 1].op), r)
    requires var front := events[..|events| - 1];
      (exists id :: Latest(front, id).Some? && RouteTouches(ns, id)(r)) ||
      (r in st.rules && forall id :: Latest(front, id).Some? ==> !RouteTouches(ns, id)(r))
    ensures (exists id :: Latest(events, id).Some? && RouteTouches(ns, id)(r)) ||
      (r in st.rules && forall id :: Latest(events, id).Some? ==> !RouteTouches(ns, id)(r))
  {
    var last, front := events[|events| - 1], events[..|events| - 1];
    forall id ensures Latest(front, id).Some? ==> Latest(events, id).Some? {}
    forall id ensures Latest(events, id).Some? && RouteTouches(ns, id)(r) ==> Latest(front, id).Some? {
      if last.op.RouteSync? && last.op.routeId == id {
        assert !RouteTouches(ns, id)(r);
      }
    }
  }

  /** The rules naming an ingress are the union of the routes' latest rules. */
  ghost predicate OnlyLatest(ns: Namespaces, rules: seq<Rule>, events: seq<Event>) {
    forall r :: Ingresses(r) != [] ==>
      (r in rules <==> exists id :: Latest(events, id).Some? && r in LatestRules(ns, events, id))
  }

  /** A rule naming an ingress is there after a lifetime exactly when it is one of
      some route's latest rules, if a rule of the start must name an ingress
      reconciled since. */
  lemma RunRuleIff(ns: Namespaces, st: State, events: seq<Event>, r: Rule)
    requires Ingresses(r) != []
    requires r in st.rules ==> exists id :: Latest(events, id).Some? && RouteTouches(ns, id)(r)
    ensures r in Lifetime(ns, st, events).rules <==> exists id :: Latest(events, id).Some? && r in LatestRules(ns, events, id)
  {
    var rules := Lifetime(ns, st, events).rules;
    forall id | Latest(events, id).Some?
      ensures r in LatestRules(ns, events, id) <==> r in rules && RouteTouches(ns, id)(r)
    {
      RunKeepsLatest(ns, st, events, id);
      FilterMember(RouteTouches(ns, id), rules, r);
    }
    if r in rules {
      WhereRulesComeFrom(ns, st, events, r);
      var id :| Latest(events, id).Some? && RouteTouches(ns, id)(r);
      assert r in LatestRules(ns, events, id);
    }
  }

  lemma StartupOnlyLatest(ns: Namespaces, live: Live, st: State, events: seq<Event>)
    requires forall id :: id in live.routes ==> Latest(events, id).Some?
    ensures OnlyLatest(ns, Lifetime(ns, Cleanup(ns, live, st), events).rules, events)
  {
    CleanupEstablishes(ns, live, st);
    forall r | Ingresses(r) != []
      ensures r in Lifetime(ns, Cleanup(ns, live, st), events).rules <==>
        exists id :: Latest(events, id).Some? && r in LatestRules(ns, events, id)
    {
      RunRuleIff(ns, Cleanup(ns, live, st), events, r);
    }
  }

  ghost predicate AllRoutesStand(ns: Namespaces, st: State, events: seq<Event>) {
    forall id :: Latest(events, id).Some? ==> RouteStands(ns, st, events, id)
  }

  lemma RunKeepsAll(ns: Namespaces, st: State, events: seq<Event>)
    ensures AllRoutesStand(ns, Lifetime(ns, st, events), events)
  {
    forall id | Latest(events, id).Some? ensures RouteStands(ns, Lifetime(ns, st, events), events, id) {
      RunKeepsLatest(ns, st, events, id);
    }
  }

  lemma StartupNeverDangles(ns: Namespaces, live: Live, st: State, events: seq<Event>)
    ensures forall n :: 0 <= n <= |events| ==> NoDangling(Lifetime(ns, Cleanup(ns, live, st), events[..n]))
  {
    CleanupEstablishes(ns, live, st);
    forall n | 0 <= n <= |events| ensures NoDangling(Lifetime(ns, Cleanup(ns, live, st), events[..n])) {
      RunSafety(ns, Cleanup(ns, live, st), events[..n]);
    }
  }

  /** Startup convergence: from any contents, a startup pass followed by any run
      that reconciles every live route at least once, in any order, with
      provider reconciles and more restarts in between, never passes through a
      dangling rule, and ends with exactly the latest rules of the routes that
      reconciled, each on its own ingresses and with its providers. */
  lemma StartupConverges(ns: Namespaces, live: Live, st: State, events: seq<Event>)
    requires forall id :: id in live.routes ==> Latest(events, id).Some?
    ensures forall n :: 0 <= n <= |events| ==> NoDangling(Lifetime(ns, Cleanup(ns, live, st), events[..n]))
    ensures AllRoutesStand(ns, Lifetime(ns, Cleanup(ns, live, st), events), events)
    ensures OnlyLatest(ns, Lifetime(ns, Cleanup(ns, live, st), events).rules, events)
  {
    StartupNeverDangles(ns, live, st, events);
    RunKeepsAll(ns, Cleanup(ns, live, st), events);
    StartupOnlyLatest(ns, live, st, events);
  }
}
