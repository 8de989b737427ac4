/** What the routes and the external providers want of the ai-proxy resource, and
    how their reconciles interleave (gpustack/gateway/utils.py:495-538,
    1543-1585, 1890-1920; gpustack/server/controllers.py:1847-1892,
    4008-4030). */
module AiProxyRuns {
  import opened Lists
  import opened StableSort
  import opened Text
  import opened Names
  import opened AiProxyMerge
  import Traces

  // ----- the desired entries of one route ----------------------------------

  /** The upstream services of one deployment inside one route. */
  datatype Group = Group(modelId: nat, apiTokens: seq<string>, services: set<string>,
                         fallbackServices: set<string>, nativeAnthropic: bool)

  function GroupProvider(g: Group): Provider {
    Provider(Some(ModelProviderId(g.modelId)),
             SelfHosted(if g.apiTokens == [] then None else Some(g.apiTokens), g.nativeAnthropic))
  }

  function GroupRule(g: Group, ingress: string, services: set<string>): seq<Rule> {
    if services == {} then []
    else [Rule(Some(map["activeProviderId" := ModelProviderId(g.modelId)]), Some([ingress]),
               Some(SortedSet(services)), "configDisable=False")]
  }

  function GroupProviders(gs: seq<Group>): seq<Provider> {
    if gs == [] then [] else
    (if gs[0].services == {} && gs[0].fallbackServices == {} then [] else [GroupProvider(gs[0])])
    + GroupProviders(gs[1..])
  }

  function GroupRules(gs: seq<Group>, main: string, fallback: string): seq<Rule> {
    if gs == [] then [] else
    GroupRule(gs[0], main, gs[0].services) + GroupRule(gs[0], fallback, gs[0].fallbackServices)
    + GroupRules(gs[1..], main, fallback)
  }

  function RouteRules(ns: Namespaces, routeId: nat, groups: seq<Group>): seq<Rule> {
    GroupRules(SortByNumber((g: Group) => g.modelId, groups), MainIngress(ns, routeId), FallbackIngress(ns, routeId))
  }

  function RouteDesired(ns: Namespaces, routeId: nat, groups: seq<Group>): Desired {
    Desired(GroupProviders(SortByNumber((g: Group) => g.modelId, groups)), RouteRules(ns, routeId, groups),
            None, RouteIngresses(ns, routeId))
  }

  // ----- the desired entries of the external providers ---------------------

  /** An external provider; `service` is absent when it has no base URL. */
  datatype ExternalProvider = ExternalProvider(id: nat, service: Option<string>, settings: string)

  function ExternalProviders(ps: seq<ExternalProvider>): seq<Provider> {
    if ps == [] then [] else
    (if ps[0].service.None? then []
     else [Provider(Some(ProviderRegistryName(ps[0].id)), External(ps[0].settings))])
    + ExternalProviders(ps[1..])
  }

  function ExternalRules(ps: seq<ExternalProvider>): seq<Rule> {
    if ps == [] then [] else
    (if ps[0].service.None? then []
     else [Rule(Some(map["activeProviderId" := ProviderRegistryName(ps[0].id)]), Some([]),
                Some([ps[0].service.value]), "configDisable=False")])
    + ExternalRules(ps[1..])
  }

  function ProvidersDesired(ps: seq<ExternalProvider>): Desired {
    var sorted := SortByNumber((p: ExternalProvider) => p.id, ps);
    Desired(ExternalProviders(sorted), ExternalRules(sorted), Some(PROVIDER_PREFIX), {})
  }

  // ----- what these entries look like --------------------------------------

  ghost predicate IsGroupRule(r: Rule, id: nat, main: string, fallback: string) {
    && RuleProviderId(r) == Some(ModelProviderId(id))
    && r.ingress in {Some([main]), Some([fallback])}
  }

  lemma {:induction false} GroupEntries(gs: seq<Group>, main: string, fallback: string)
    ensures forall r :: r in GroupRules(gs, main, fallback) ==>
      exists id :: IsGroupRule(r, id, main, fallback) && ModelProviderId(id) in ExpectedIds(GroupProviders(gs))
    ensures forall p :: p in GroupProviders(gs) ==>
      exists id :: p.id == Some(ModelProviderId(id)) && ModelProviderId(id) in Referenced(GroupRules(gs, main, fallback))
  {
    if gs != [] {
      var g := gs[0];
      GroupEntries(gs[1..], main, fallback);
      var rest, ps := GroupRules(gs[1..], main, fallback), GroupProviders(gs[1..]);
      var own := GroupRule(g, main, g.services) + GroupRule(g, fallback, g.fallbackServices);
      assert GroupRules(gs, main, fallback) == own + rest;
      assert ModelProviderId(g.modelId) != "";
      forall r | r in GroupRules(gs, main, fallback)
        ensures exists id :: IsGroupRule(r, id, main, fallback) && ModelProviderId(id) in ExpectedIds(GroupProviders(gs))
      {
        if r in own {
          assert IsGroupRule(r, g.modelId, main, fallback);
          assert GroupProviders(gs)[0] == GroupProvider(g);
          assert GroupProvider(g) in GroupProviders(gs);
        } else {
          var id :| IsGroupRule(r, id, main, fallback) && ModelProviderId(id) in ExpectedIds(ps);
          assert forall p :: p in ps ==> p in GroupProviders(gs);
        }
      }
      forall p | p in GroupProviders(gs)
        ensures exists id :: (p.id == Some(ModelProviderId(id)) &&
                              ModelProviderId(id) in Referenced(GroupRules(gs, main, fallback)))
      {
        if p in ps {
          var id :| p.id == Some(ModelProviderId(id)) && ModelProviderId(id) in Referenced(rest);
          assert forall r :: r in rest ==> r in GroupRules(gs, main, fallback);
        } else {
          assert p == GroupProvider(g) && own != [];
          assert own[0] in GroupRules(gs, main, fallback);
          assert RuleProviderId(own[0]) == Some(ModelProviderId(g.modelId));
        }
      }
    }
  }

  ghost predicate IsExternalRule(r: Rule, id: nat) {
    RuleProviderId(r) == Some(ProviderRegistryName(id)) && r.ingress == Some([])
  }

  lemma {:induction false} ExternalRuleForm(ps: seq<ExternalProvider>, r: Rule)
    requires r in ExternalRules(ps)
    ensures exists id :: IsExternalRule(r, id) && ProviderRegistryName(id) in ExpectedIds(ExternalProviders(ps))
  {
    if r in ExternalRules(ps[1..]) {
      ExternalRuleForm(ps[1..], r);
      assert forall q :: q in ExternalProviders(ps[1..]) ==> q in ExternalProviders(ps);
    } else {
      assert IsExternalRule(r, ps[0].id);
      assert ExternalProviders(ps)[0] in ExternalProviders(ps);
      assert ProviderRegistryName(ps[0].id) != "";
    }
  }

  lemma {:induction false} ExternalProviderForm(ps: seq<ExternalProvider>, p: Provider)
    requires p in ExternalProviders(ps)
    ensures exists id :: p.id == Some(ProviderRegistryName(id)) && ProviderRegistryName(id) in Referenced(ExternalRules(ps))
  {
    if p in ExternalProviders(ps[1..]) {
      ExternalProviderForm(ps[1..], p);
      assert forall r :: r in ExternalRules(ps[1..]) ==> r in ExternalRules(ps);
    } else {
      assert p.id == Some(ProviderRegistryName(ps[0].id));
      assert ExternalRules(ps)[0] in ExternalRules(ps);
      assert ProviderRegistryName(ps[0].id) != "";
    }
  }

  lemma ExternalEntries(ps: seq<ExternalProvider>)
    ensures forall r :: r in ExternalRules(ps) ==>
      exists id :: IsExternalRule(r, id) && ProviderRegistryName(id) in ExpectedIds(ExternalProviders(ps))
    ensures forall p :: p in ExternalProviders(ps) ==>
      exists id :: p.id == Some(ProviderRegistryName(id)) && ProviderRegistryName(id) in Referenced(ExternalRules(ps))
  {
    forall r | r in ExternalRules(ps)
      ensures exists id :: IsExternalRule(r, id) && ProviderRegistryName(id) in ExpectedIds(ExternalProviders(ps))
    {
      ExternalRuleForm(ps, r);
    }
    forall p | p in ExternalProviders(ps)
      ensures exists id :: (p.id == Some(ProviderRegistryName(id)) && ProviderRegistryName(id) in Referenced(ExternalRules(ps)))
    {
      ExternalProviderForm(ps, p);
    }
  }

  // ----- steps -------------------------------------------------------------

  datatype Op = RouteSync(routeId: nat, groups: seq<Group>) | ProviderSync(providers: seq<ExternalProvider>)

  datatype Owner = Route(id: nat) | Providers

  function OwnerOf(): Op -> Owner {
    (op: Op) => match op case RouteSync(id, _) => Route(id) case ProviderSync(_) => Providers
  }

  function DesiredOf(ns: Namespaces, op: Op): Desired {
    match op
    case RouteSync(id, groups) => RouteDesired(ns, id, groups)
    case ProviderSync(ps) => ProvidersDesired(ps)
  }

  function Step(ns: Namespaces): (State, Op) -> State {
    (st, op) => Merge(DesiredOf(ns, op), st)
  }

  function RunFrom(ns: Namespaces, st: State, ops: seq<Op>): State {
    Traces.Run(Step(ns), st, ops)
  }

  lemma RouteEntries(ns: Namespaces, id: nat, groups: seq<Group>)
    ensures WellFormed(RouteDesired(ns, id, groups))
    ensures forall r :: r in RouteRules(ns, id, groups) ==>
      exists m :: IsGroupRule(r, m, MainIngress(ns, id), FallbackIngress(ns, id))
    ensures forall p :: p in RouteDesired(ns, id, groups).providers ==> exists m :: p.id == Some(ModelProviderId(m))
  {
    var gs := SortByNumber((g: Group) => g.modelId, groups);
    GroupEntries(gs, MainIngress(ns, id), FallbackIngress(ns, id));
    var d := RouteDesired(ns, id, groups);
    forall r | r in d.rules ensures DropsRule(d, r) && RuleProviderId(r).Some? && RuleProviderId(r).value in ExpectedIds(d.providers) {
      var m :| IsGroupRule(r, m, MainIngress(ns, id), FallbackIngress(ns, id)) &&
        ModelProviderId(m) in ExpectedIds(d.providers);
      assert Ingresses(r)[0] in Ingresses(r) && Ingresses(r)[0] in d.owned;
    }
  }

  /** The rule of one deployment on one ingress: it points at the deployment's
      provider and names exactly the given services, in ascending order. */
  ghost predicate IsRuleFor(r: Rule, modelId: nat, ingress: string, services: set<string>) {
    && services != {}
    && r.config == Some(map["activeProviderId" := ModelProviderId(modelId)])
    && r.ingress == Some([ingress])
    && r.service.Some? && Enumerates(r.service.value, services)
    && r.rest == "configDisable=False"
  }

  lemma GroupRuleIff(g: Group, ingress: string, services: set<string>, r: Rule)
    ensures r in GroupRule(g, ingress, services) <==> IsRuleFor(r, g.modelId, ingress, services)
  {
    if services != {} {
      SortedSetEnumerates(services);
      if IsRuleFor(r, g.modelId, ingress, services) {
        EnumeratesUnique(r.service.value, SortedSet(services), services);
        assert r == GroupRule(g, ingress, services)[0];
      }
    }
  }

  ghost predicate FromGroup(r: Rule, g: Group, main: string, fallback: string) {
    IsRuleFor(r, g.modelId, main, g.services) || IsRuleFor(r, g.modelId, fallback, g.fallbackServices)
  }

  lemma {:induction false} GroupRulesIff(gs: seq<Group>, main: string, fallback: string, r: Rule)
    ensures r in GroupRules(gs, main, fallback) <==> exists g :: g in gs && FromGroup(r, g, main, fallback)
  {
    if gs != [] {
      GroupRuleIff(gs[0], main, gs[0].services, r);
      GroupRuleIff(gs[0], fallback, gs[0].fallbackServices, r);
      GroupRulesIff(gs[1..], main, fallback, r);
      assert gs[0] in gs;
      assert forall g :: g in gs <==> g == gs[0] || g in gs[1..];
    }
  }

  /** A route expects exactly one kind of rule: per deployment and per ingress
      with services to reach, the rule naming all of those services. */
  lemma RouteRulesIff(ns: Namespaces, id: nat, groups: seq<Group>, r: Rule)
    ensures r in RouteRules(ns, id, groups) <==>
      exists g :: g in groups && FromGroup(r, g, MainIngress(ns, id), FallbackIngress(ns, id))
  {
    SortByNumberMembers((g: Group) => g.modelId, groups);
    GroupRulesIff(SortByNumber((g: Group) => g.modelId, groups), MainIngress(ns, id), FallbackIngress(ns, id), r);
  }

  /** The rule of an external provider matches by its one service alone. */
  ghost predicate IsRuleOf(r: Rule, e: ExternalProvider) {
    && e.service.Some? && r.service == Some([e.service.value]) && r.ingress == Some([])
    && r.config == Some(map["activeProviderId" := ProviderRegistryName(e.id)])
    && r.rest == "configDisable=False"
  }

  ghost predicate IsEntryOf(p: Provider, e: ExternalProvider) {
    e.service.Some? && p.id == Some(ProviderRegistryName(e.id)) && p.settings == External(e.settings)
  }

  lemma {:induction false} ExternalIff(ps: seq<ExternalProvider>, r: Rule, p: Provider)
    ensures r in ExternalRules(ps) <==> exists e :: e in ps && IsRuleOf(r, e)
    ensures p in ExternalProviders(ps) <==> exists e :: e in ps && IsEntryOf(p, e)
  {
    if ps != [] {
      ExternalIff(ps[1..], r, p);
      assert ps[0] in ps;
      assert forall e :: e in ps <==> e == ps[0] || e in ps[1..];
      assert ps[0].service.Some? ==>
        (IsRuleOf(r, ps[0]) <==> r == ExternalRules(ps)[0]) && (IsEntryOf(p, ps[0]) <==> p == ExternalProviders(ps)[0]);
    }
  }

  /** The expected entries of the external providers: a rule and an entry for
      each one that has a service, none for the others. */
  lemma ProvidersDesiredIff(ps: seq<ExternalProvider>, r: Rule, p: Provider)
    ensures r in ProvidersDesired(ps).rules <==> exists e :: e in ps && IsRuleOf(r, e)
    ensures p in ProvidersDesired(ps).providers <==> exists e :: e in ps && IsEntryOf(p, e)
  {
    SortByNumberMembers((e: ExternalProvider) => e.id, ps);
    ExternalIff(SortByNumber((e: ExternalProvider) => e.id, ps), r, p);
  }

  lemma ProviderEntries(ps: seq<ExternalProvider>)
    ensures WellFormed(ProvidersDesired(ps))
    ensures forall r :: r in ProvidersDesired(ps).rules ==> exists id :: IsExternalRule(r, id)
    ensures forall p :: p in ProvidersDesired(ps).providers ==> exists id :: p.id == Some(ProviderRegistryName(id))
  {
    ExternalEntries(SortByNumber((p: ExternalProvider) => p.id, ps));
    var d := ProvidersDesired(ps);
    forall r | r in d.rules ensures DropsRule(d, r) {
      var id :| IsExternalRule(r, id);
      ProviderIdKinds(0, id);
    }
  }

  lemma DesiredWellFormed(ns: Namespaces, op: Op)
    ensures WellFormed(DesiredOf(ns, op))
  {
    match op
    case RouteSync(id, groups) => RouteEntries(ns, id, groups);
    case ProviderSync(ps) => ProviderEntries(ps);
  }

  lemma RouteRuleForm(ns: Namespaces, id: nat, groups: seq<Group>, r: Rule)
    requires r in RouteRules(ns, id, groups)
    ensures |Ingresses(r)| == 1 && Ingresses(r)[0] in RouteIngresses(ns, id)
  {
    RouteEntries(ns, id, groups);
    var m :| IsGroupRule(r, m, MainIngress(ns, id), FallbackIngress(ns, id));
  }

  lemma OneIngress(r: Rule, own: set<string>, other: set<string>)
    requires |Ingresses(r)| == 1 && Ingresses(r)[0] in own
    ensures Touches(own, r)
    ensures own !! other ==> !Touches(other, r)
  {
    assert Ingresses(r)[0] in Ingresses(r);
  }

  lemma DifferentIngresses(x: Rule, y: Rule, a: set<string>, b: set<string>)
    requires a !! b && |Ingresses(x)| == 1 && Ingresses(x)[0] in a && |Ingresses(y)| == 1 && Ingresses(y)[0] in b
    ensures RuleKey()(x) != RuleKey()(y)
  {
    assert RuleKey()(x)[1] == Ingresses(x)[0] && RuleKey()(y)[1] == Ingresses(y)[0];
  }

  lemma RoutesIndependent(ns: Namespaces, a: nat, ga: seq<Group>, b: nat, gb: seq<Group>)
    requires a != b
    ensures Independent(RouteDesired(ns, a, ga), RouteDesired(ns, b, gb))
  {
    var da, db := RouteDesired(ns, a, ga), RouteDesired(ns, b, gb);
    var ia, ib := RouteIngresses(ns, a), RouteIngresses(ns, b);
    IngressNamesApart(ns, a, b);
    forall r | r in da.rules ensures !DropsRule(db, r) {
      RouteRuleForm(ns, a, ga, r);
      OneIngress(r, ia, ib);
    }
    forall r | r in db.rules ensures !DropsRule(da, r) {
      RouteRuleForm(ns, b, gb, r);
      OneIngress(r, ib, ia);
    }
    forall x, y | x in da.rules && y in db.rules ensures RuleKey()(x) != RuleKey()(y) {
      RouteRuleForm(ns, a, ga, x);
      RouteRuleForm(ns, b, gb, y);
      DifferentIngresses(x, y, ia, ib);
    }
  }

  lemma RouteProvidersApart(ns: Namespaces, a: nat, ga: seq<Group>, ps: seq<ExternalProvider>)
    ensures var da, db := RouteDesired(ns, a, ga), ProvidersDesired(ps);
      && (forall r :: r in da.rules ==> !DropsRule(db, r))
      && (forall r :: r in db.rules ==> !DropsRule(da, r))
      && (forall p :: p in da.providers && p.id.Some? ==> !OwnsId(db, p.id.value))
      && ExpectedIds(da.providers) !! ExpectedIds(db.providers)
  {
    RouteEntries(ns, a, ga);
    ProviderEntries(ps);
    var da, db := RouteDesired(ns, a, ga), ProvidersDesired(ps);
    forall r | r in da.rules ensures !DropsRule(db, r) {
      var m :| IsGroupRule(r, m, MainIngress(ns, a), FallbackIngress(ns, a));
      ProviderIdKinds(m, 0);
    }
    forall r | r in db.rules ensures !DropsRule(da, r) {
      var n :| IsExternalRule(r, n);
    }
    forall p | p in da.providers && p.id.Some? ensures !OwnsId(db, p.id.value) {
      var m :| p.id == Some(ModelProviderId(m));
      ProviderIdKinds(m, 0);
    }
    forall p | p in db.providers ensures p.id.Some? && OwnsId(db, p.id.value) {
      var n :| p.id == Some(ProviderRegistryName(n));
      ProviderIdKinds(0, n);
    }
  }

  lemma RouteProvidersKeysApart(ns: Namespaces, a: nat, ga: seq<Group>, ps: seq<ExternalProvider>, x: Rule, y: Rule)
    requires x in RouteDesired(ns, a, ga).rules && y in ProvidersDesired(ps).rules
    ensures RuleKey()(x) != RuleKey()(y)
  {
    RouteEntries(ns, a, ga);
    ProviderEntries(ps);
    var m :| IsGroupRule(x, m, MainIngress(ns, a), FallbackIngress(ns, a));
    var n :| IsExternalRule(y, n);
    ProviderIdKinds(m, n);
    assert RuleKey()(x)[0] != RuleKey()(y)[0];
  }

  lemma RouteProvidersIndependent(ns: Namespaces, a: nat, ga: seq<Group>, ps: seq<ExternalProvider>)
    ensures Independent(RouteDesired(ns, a, ga), ProvidersDesired(ps))
    ensures Independent(ProvidersDesired(ps), RouteDesired(ns, a, ga))
  {
    RouteProvidersApart(ns, a, ga, ps);
    forall x, y | x in RouteDesired(ns, a, ga).rules && y in ProvidersDesired(ps).rules
      ensures RuleKey()(x) != RuleKey()(y)
    {
      RouteProvidersKeysApart(ns, a, ga, ps, x, y);
    }
  }

  /** Order independence for two routes: on any resource their reconciles give
      the same rules in either order, and the same providers exactly when they
      agree on the deployments they share. */
  lemma RoutesCommuteIff(ns: Namespaces, a: nat, ga: seq<Group>, b: nat, gb: seq<Group>, st: State)
    requires a != b
    ensures var da, db := RouteDesired(ns, a, ga), RouteDesired(ns, b, gb);
      && (Merge(db, Merge(da, st)) == Merge(da, Merge(db, st)) <==> Agree(da, db))
      && Merge(db, Merge(da, st)).rules == Merge(da, Merge(db, st)).rules
  {
    RouteEntries(ns, a, ga);
    RouteEntries(ns, b, gb);
    RoutesIndependent(ns, a, ga, b, gb);
    MergesCommuteIff(RouteDesired(ns, a, ga), RouteDesired(ns, b, gb), st);
  }

  /** Two routes of one deployment that carry different tokens: the later
      write wins, so on every resource the order shows. */
  lemma DisagreementShows(ns: Namespaces, st: State) returns (ga: seq<Group>, gb: seq<Group>)
    ensures var da, db := RouteDesired(ns, 1, ga), RouteDesired(ns, 2, gb);
      Merge(db, Merge(da, st)) != Merge(da, Merge(db, st))
  {
    ga := [Group(5, ["x"], {"s"}, {}, false)];
    gb := [Group(5, ["y"], {"s"}, {}, false)];
    var pa, pb := GroupProvider(ga[0]), GroupProvider(gb[0]);
    assert ga[1..] == [] && gb[1..] == [];
    assert RouteDesired(ns, 1, ga).providers == [pa];
    assert RouteDesired(ns, 2, gb).providers == [pb];
    var id := ModelProviderId(5);
    assert pa in [pa] && pb in [pb];
    assert id in ExpectedIds([pa]) && id in ExpectedIds([pb]);
    FilterAll(HasKey(ProviderKey(), [id]), [pa]);
    FilterAll(HasKey(ProviderKey(), [id]), [pb]);
    assert ["x"][0] != ["y"][0];
    RoutesCommuteIff(ns, 1, ga, 2, gb, st);
  }

  // ----- what agreeing comes down to ---------------------------------------

  /** What a deployment carries into its provider entry. */
  datatype Deployment = Deployment(apiTokens: seq<string>, nativeAnthropic: bool)

  ghost predicate DistinctModels(gs: seq<Group>) {
    forall i, j :: 0 <= i < j < |gs| ==> gs[i].modelId != gs[j].modelId
  }

  /** The groups of a route, one per deployment, as the deployments are. */
  ghost predicate Reflects(deployments: nat -> Deployment, groups: seq<Group>) {
    DistinctModels(groups) && forall g :: g in groups ==> Deployment(g.apiTokens, g.nativeAnthropic) == deployments(g.modelId)
  }

  /** The route has services of this deployment to reach. */
  predicate Serves(g: Group) { g.services != {} || g.fallbackServices != {} }

  lemma ProviderIdInjective(a: nat, b: nat)
    requires ModelProviderId(a) == ModelProviderId(b)
    ensures a == b
  {
    DropPrefix(MODEL_PROVIDER_PREFIX, Decimal(a));
    DropPrefix(MODEL_PROVIDER_PREFIX, Decimal(b));
    ValueOfDecimal(a);
    ValueOfDecimal(b);
  }

  lemma {:induction false} GroupsElsewhere(gs: seq<Group>, id: nat)
    requires forall i :: 0 <= i < |gs| ==> gs[i].modelId != id
    ensures Entries(GroupProviders(gs), ModelProviderId(id)) == []
  {
    if gs != [] {
      var rest := GroupProviders(gs[1..]);
      GroupsElsewhere(gs[1..], id);
      if GroupProviders(gs) != rest {
        assert GroupProviders(gs) == [GroupProvider(gs[0])] + rest;
        if ModelProviderId(gs[0].modelId) == ModelProviderId(id) {
          ProviderIdInjective(gs[0].modelId, id);
          assert false;
        }
      }
    }
  }

  /** A deployment has exactly one entry among those of groups that serve it. */
  lemma {:induction false} EntriesOfGroups(gs: seq<Group>, g: Group)
    requires DistinctModels(gs) && g in gs && Serves(g)
    ensures Entries(GroupProviders(gs), ModelProviderId(g.modelId)) == [GroupProvider(g)]
  {
    var id, rest := ModelProviderId(g.modelId), GroupProviders(gs[1..]);
    if g == gs[0] {
      assert GroupProviders(gs) == [GroupProvider(g)] + rest;
      forall i | 0 <= i < |gs[1..]| ensures gs[1..][i].modelId != g.modelId { assert gs[i + 1] == gs[1..][i]; }
      GroupsElsewhere(gs[1..], g.modelId);
    } else {
      assert g in gs[1..];
      EntriesOfGroups(gs[1..], g);
      var i :| 0 <= i < |gs[1..]| && gs[1..][i] == g;
      assert gs[i + 1] == g && gs[0].modelId != g.modelId;
      if ModelProviderId(gs[0].modelId) == id {
        ProviderIdInjective(gs[0].modelId, g.modelId);
        assert false;
      }
      assert [] + rest == rest && ([GroupProvider(gs[0])] + rest)[1..] == rest;
    }
  }

  lemma {:induction false} GroupsExpect(gs: seq<Group>, id: string)
    ensures id in ExpectedIds(GroupProviders(gs)) <==> exists g :: g in gs && Serves(g) && id == ModelProviderId(g.modelId)
  {
    if gs != [] {
      GroupsExpect(gs[1..], id);
      assert gs[0] in gs && forall g :: g in gs <==> g == gs[0] || g in gs[1..];
      assert ModelProviderId(gs[0].modelId) != "";
      assert forall p :: p in GroupProviders(gs) <==> (Serves(gs[0]) && p == GroupProvider(gs[0])) || p in GroupProviders(gs[1..]);
    }
  }

  lemma {:induction false} SortKeepsDistinct(gs: seq<Group>)
    requires DistinctModels(gs)
    ensures DistinctModels(SortByNumber((g: Group) => g.modelId, gs))
  {
    var f := (g: Group) => g.modelId;
    if gs != [] {
      SortKeepsDistinct(gs[1..]);
      SortByNumberMembers(f, gs[1..]);
      var s := SortByNumber(f, gs[1..]);
      forall i | 0 <= i < |s| ensures s[i].modelId != gs[0].modelId {
        assert s[i] in gs[1..];
        var j :| 0 <= j < |gs[1..]| && gs[1..][j] == s[i];
        assert gs[j + 1] == s[i];
      }
      InsertKeepsDistinct(gs[0], s);
    }
  }

  lemma {:induction false} InsertKeepsDistinct(x: Group, s: seq<Group>)
    requires DistinctModels(s) && forall i :: 0 <= i < |s| ==> s[i].modelId != x.modelId
    ensures DistinctModels(InsertByNumber((g: Group) => g.modelId, x, s))
  {
    var f := (g: Group) => g.modelId;
    if s != [] && f(x) > f(s[0]) {
      var rest := InsertByNumber(f, x, s[1..]);
      InsertKeepsDistinct(x, s[1..]);
      InsertByNumberMembers(f, x, s[1..]);
      forall i | 0 <= i < |rest| ensures rest[i].modelId != s[0].modelId {
        if rest[i] != x {
          assert rest[i] in rest;
          var j :| 0 <= j < |s[1..]| && s[1..][j] == rest[i];
          assert s[j + 1] == rest[i];
        }
      }
    }
  }

  /** A route wants the providers of exactly the deployments it serves. */
  lemma RouteExpects(ns: Namespaces, routeId: nat, groups: seq<Group>, id: string)
    ensures id in ExpectedIds(RouteDesired(ns, routeId, groups).providers) <==>
      exists g :: g in groups && Serves(g) && id == ModelProviderId(g.modelId)
  {
    SortByNumberMembers((g: Group) => g.modelId, groups);
    GroupsExpect(SortByNumber((g: Group) => g.modelId, groups), id);
  }

  /** The one entry of a deployment, with the group's tokens, absent if there are
      none, and its capabilities. */
  ghost predicate Says(entries: seq<Provider>, g: Group) {
    && |entries| == 1 && entries[0].id == Some(ModelProviderId(g.modelId)) && entries[0].settings.SelfHosted?
    && entries[0].settings.nativeAnthropic == g.nativeAnthropic
    && (g.apiTokens == [] ==> entries[0].settings.apiTokens == None)
    && (g.apiTokens != [] ==> entries[0].settings.apiTokens == Some(g.apiTokens))
  }

  lemma SaysIff(entries: seq<Provider>, g: Group)
    ensures Says(entries, g) <==> entries == [GroupProvider(g)]
  {
    if Says(entries, g) {
      assert entries[0] == GroupProvider(g);
    }
  }

  /** And each of them has exactly one entry, which says what its group says. */
  lemma RouteEntriesFor(ns: Namespaces, routeId: nat, groups: seq<Group>, g: Group)
    requires DistinctModels(groups) && g in groups && Serves(g)
    ensures Says(Entries(RouteDesired(ns, routeId, groups).providers, ModelProviderId(g.modelId)), g)
  {
    SaysIff([GroupProvider(g)], g);
    SortKeepsDistinct(groups);
    SortByNumberMembers((x: Group) => x.modelId, groups);
    EntriesOfGroups(SortByNumber((x: Group) => x.modelId, groups), g);
  }

  /** Routes that reflect the same deployments agree. */
  lemma ReflectingRoutesAgree(ns: Namespaces, a: nat, ga: seq<Group>, b: nat, gb: seq<Group>, deployments: nat -> Deployment)
    requires Reflects(deployments, ga) && Reflects(deployments, gb)
    ensures Agree(RouteDesired(ns, a, ga), RouteDesired(ns, b, gb))
  {
    var pa, pb := RouteDesired(ns, a, ga).providers, RouteDesired(ns, b, gb).providers;
    forall id | id in ExpectedIds(pa) && id in ExpectedIds(pb) ensures Entries(pa, id) == Entries(pb, id) {
      RouteExpects(ns, a, ga, id);
      RouteExpects(ns, b, gb, id);
      var x :| x in ga && Serves(x) && id == ModelProviderId(x.modelId);
      var y :| y in gb && Serves(y) && id == ModelProviderId(y.modelId);
      ProviderIdInjective(x.modelId, y.modelId);
      RouteEntriesFor(ns, a, ga, x);
      RouteEntriesFor(ns, b, gb, y);
      SaysIff(Entries(pa, id), x);
      SaysIff(Entries(pb, id), y);
    }
  }

  /** All the steps of a run agree on the deployments they share. */
  ghost predicate Consistent(ns: Namespaces, ops: seq<Op>) {
    forall a, b :: a in ops && b in ops && OwnerOf()(a) != OwnerOf()(b) ==> Agree(DesiredOf(ns, a), DesiredOf(ns, b))
  }

  lemma OpsCommute(ns: Namespaces, a: Op, b: Op)
    requires OwnerOf()(a) != OwnerOf()(b) && Agree(DesiredOf(ns, a), DesiredOf(ns, b))
    ensures Traces.Commute(Step(ns), a, b)
  {
    DesiredWellFormed(ns, a);
    DesiredWellFormed(ns, b);
    match (a, b) {
      case (RouteSync(i, ga), RouteSync(j, gb)) => RoutesIndependent(ns, i, ga, j, gb);
      case (RouteSync(i, ga), ProviderSync(ps)) => RouteProvidersIndependent(ns, i, ga, ps);
      case (ProviderSync(ps), RouteSync(i, ga)) => RouteProvidersIndependent(ns, i, ga, ps);
      case (ProviderSync(_), ProviderSync(_)) =>
    }
    forall st ensures Step(ns)(Step(ns)(st, a), b) == Step(ns)(Step(ns)(st, b), a) {
      MergesCommuteIff(DesiredOf(ns, a), DesiredOf(ns, b), st);
    }
  }

  /** Every interleaving of the same per-route and provider histories leaves the
      same resource, both lists in the same order, from any start. */
  lemma InterleavingsConverge(ns: Namespaces, st: State, xs: seq<Op>, ys: seq<Op>)
    requires Traces.SameHistories(OwnerOf(), xs, ys) && Consistent(ns, ys)
    ensures RunFrom(ns, st, xs) == RunFrom(ns, st, ys)
  {
    forall a, b | a in ys && b in ys && OwnerOf()(a) != OwnerOf()(b) ensures Traces.Commute(Step(ns), a, b) {
      OpsCommute(ns, a, b);
    }
    Traces.InterleavingsAgree(Step(ns), OwnerOf(), st, xs, ys);
  }

  /** In particular, while the deployments do not change their credentials, the
      interleaving of route and provider reconciles does not matter. */
  lemma StableDeploymentsConverge(ns: Namespaces, st: State, xs: seq<Op>, ys: seq<Op>, deployments: nat -> Deployment)
    requires Traces.SameHistories(OwnerOf(), xs, ys)
    requires forall op :: op in ys && op.RouteSync? ==> Reflects(deployments, op.groups)
    ensures RunFrom(ns, st, xs) == RunFrom(ns, st, ys)
  {
    forall a, b | a in ys && b in ys && OwnerOf()(a) != OwnerOf()(b) ensures Agree(DesiredOf(ns, a), DesiredOf(ns, b)) {
      match (a, b) {
        case (RouteSync(i, ga), RouteSync(j, gb)) => ReflectingRoutesAgree(ns, i, ga, j, gb, deployments);
        case (RouteSync(i, ga), ProviderSync(ps)) => RouteProvidersApart(ns, i, ga, ps);
        case (ProviderSync(ps), RouteSync(i, ga)) => RouteProvidersApart(ns, i, ga, ps);
        case (ProviderSync(_), ProviderSync(_)) =>
      }
    }
    InterleavingsConverge(ns, st, xs, ys);
  }
}
