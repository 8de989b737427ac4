/** The ai-proxy custom resource as the reconcilers update it in place
    (gpustack/gateway/utils.py:1120-1175, 1588-1678, 1710-1760, 1890-1920). */
module AiProxyPlugin {
  import opened Lists
  import opened StableSort
  import opened Names
  import opened AiProxyMerge
  import opened AiProxyRuns
  import opened AiProxyLifetimes

  /** `defaultConfig`: the providers and everything else in it. */
  datatype DefaultConfig = DefaultConfig(providers: Option<seq<Provider>>, other: string)

  datatype Spec = Spec(defaultConfig: Option<DefaultConfig>, matchRules: Option<seq<Rule>>, rest: string)

  const EMPTY_CONFIG := DefaultConfig(None, "")

  /** The two lists, an absent one read as empty. */
  function Contents(s: Spec): State {
    State(s.matchRules.GetOr([]), s.defaultConfig.GetOr(EMPTY_CONFIG).providers.GetOr([]))
  }

  function WithContents(s: Spec, st: State): Spec {
    s.(defaultConfig := Some(s.defaultConfig.GetOr(EMPTY_CONFIG).(providers := Some(st.providers))),
       matchRules := Some(st.rules))
  }

  /** The same outside the two lists. */
  predicate SameBesides(a: Spec, b: Spec) {
    a.rest == b.rest && a.defaultConfig.GetOr(EMPTY_CONFIG).other == b.defaultConfig.GetOr(EMPTY_CONFIG).other
  }

  /** `ai_proxy_diff_spec`: a missing spec is left missing. */
  function DiffSpec(d: Desired, spec: Option<Spec>): Option<Spec> {
    match spec
    case None => None
    case Some(s) => Some(WithContents(s, Merge(d, Contents(s))))
  }

  /** What reads back after a write. Some API servers decode `matchRules` into a
      typed list and omit an empty one. */
  function Stored(dropsEmpty: bool, s: Spec): Spec {
    if dropsEmpty && s.matchRules == Some([]) then s.(matchRules := None) else s
  }

  /** Whether reconciling what the previous reconcile left would write again. */
  predicate WritesAgain(dropsEmpty: bool, d: Desired, s: Spec) {
    var left := Stored(dropsEmpty, WithContents(s, Merge(d, Contents(s))));
    DiffSpec(d, Some(left)) != Some(left)
  }

  /** An unchanged desired state is quiet, except on a store that omits empty
      lists when the reconcile leaves no rule at all: no rule expected and every
      rule there owned. Then each reconcile writes again. */
  lemma RepeatedReconcileWritesIff(dropsEmpty: bool, d: Desired, s: Spec)
    requires WellFormed(d)
    ensures WritesAgain(dropsEmpty, d, s) <==>
      dropsEmpty && d.rules == [] && forall r :: r in Contents(s).rules ==> DropsRule(d, r)
  {
    var st := Merge(d, Contents(s));
    var left := Stored(dropsEmpty, WithContents(s, st));
    MergeIdempotent(d, Contents(s));
    assert Contents(left) == st;
    assert WritesAgain(dropsEmpty, d, s) <==> dropsEmpty && st.rules == [];
    var kept := Filter(KeepsRule(d), Contents(s).rules);
    SortCount(RuleKey(), d.rules + kept);
    assert |st.rules| == |multiset(st.rules)| == |multiset(d.rules + kept)| == |d.rules| + |kept|;
    if kept != [] {
      FilterMember(KeepsRule(d), Contents(s).rules, kept[0]);
    } else {
      forall r | r in Contents(s).rules ensures DropsRule(d, r) {
        FilterMember(KeepsRule(d), Contents(s).rules, r);
      }
    }
  }

  /** For instance, the first route of a new installation while none of its
      instances is up: it expects nothing and finds nothing. */
  lemma IdleRouteKeepsWriting(ns: Namespaces, routeId: nat, s: Spec)
    requires Contents(s).rules == []
    ensures WritesAgain(true, RouteDesired(ns, routeId, []), s) && !WritesAgain(false, RouteDesired(ns, routeId, []), s)
  {
    RouteEntries(ns, routeId, []);
    RepeatedReconcileWritesIff(true, RouteDesired(ns, routeId, []), s);
    RepeatedReconcileWritesIff(false, RouteDesired(ns, routeId, []), s);
  }

  class Plugin {
    var spec: Option<Spec>
    var writes: nat
    const dropsEmpty: bool

    constructor (spec: Option<Spec>, dropsEmpty: bool)
      ensures this.spec == spec && writes == 0 && this.dropsEmpty == dropsEmpty
    {
      this.spec, writes, this.dropsEmpty := spec, 0, dropsEmpty;
    }

    static method MergeMatchRules(existing: seq<Rule>, d: Desired) returns (rules: seq<Rule>)
      ensures rules == MergeRules(d, existing)
    {
      var toKeep := [];
      for i := 0 to |existing|
        invariant toKeep == Filter(KeepsRule(d), existing[..i])
      {
        var rule := existing[i];
        FilterSnoc(KeepsRule(d), existing, i);
        var id := RuleProviderId(rule);
        if id.Some? && d.prefix.Some? && StartsWith(id.value, d.prefix.value) {
          continue;
        }
        if Touches(d.owned, rule) {
          continue;
        }
        toKeep := toKeep + [rule];
      }
      assert existing[..|existing|] == existing;
      rules := Sort(RuleKey(), d.rules + toKeep);
    }

    static method MergeDefaultProviders(existing: seq<Provider>, d: Desired, refs: set<string>)
      returns (providers: seq<Provider>)
      ensures providers == MergeProviders(d, refs, existing)
    {
      var expected := ExpectedIds(d.providers);
      var toKeep := [];
      for i := 0 to |existing|
        invariant toKeep == Filter(KeepsProvider(d, refs), existing[..i])
      {
        var provider := existing[i];
        FilterSnoc(KeepsProvider(d, refs), existing, i);
        if provider.id.Some? {
          var id := provider.id.value;
          if d.prefix.Some? && StartsWith(id, d.prefix.value) {
            continue;
          }
          if id in expected {
            continue;
          }
          if Collectable(id) && id !in refs {
            continue;
          }
        }
        toKeep := toKeep + [provider];
      }
      assert existing[..|existing|] == existing;
      providers := Sort(ProviderKey(), d.providers + toKeep);
    }

    /** One `ensure_wasm_plugin` with the ai-proxy diff: rules first, providers
        against the resulting rules, a write only if something changed. */
    method Reconcile(d: Desired)
      modifies this
      ensures spec.Some? <==> old(spec).Some?
      ensures spec.Some? ==> Contents(spec.value) == Merge(d, Contents(old(spec).value))
      ensures writes == old(writes) + if DiffSpec(d, old(spec)) == old(spec) then 0 else 1
      ensures spec == old(spec) || (spec.Some? && spec.value == Stored(dropsEmpty, DiffSpec(d, old(spec)).value))
      ensures spec.Some? ==> SameBesides(spec.value, old(spec).value)
    {
      if spec.None? {
        return;
      }
      var current := spec.value;
      if current.defaultConfig.None? {
        current := current.(defaultConfig := Some(EMPTY_CONFIG));
      }
      var rules := MergeMatchRules(current.matchRules.GetOr([]), d);
      var providers := MergeDefaultProviders(current.defaultConfig.value.providers.GetOr([]), d, Referenced(rules));
      current := current.(defaultConfig := Some(current.defaultConfig.value.(providers := Some(providers))));
      current := current.(matchRules := Some(rules));
      if current != spec.value {
        spec := Some(Stored(dropsEmpty, current));
        writes := writes + 1;
      }
    }

    /** The startup pass: providers first, then the rules of those that are
        left; always written. */
    method CleanUp(ns: Namespaces, live: Live)
      requires spec.Some?
      modifies this
      ensures spec.Some? && writes == old(writes) + 1
      ensures Contents(spec.value) == Cleanup(ns, live, Contents(old(spec).value))
      ensures NoDangling(Contents(spec.value)) && SameBesides(spec.value, old(spec).value)
    {
      var config := spec.value.defaultConfig.GetOr(EMPTY_CONFIG);
      var current := config.providers.GetOr([]);
      var providers := [];
      for i := 0 to |current|
        modifies {}
        invariant providers == Filter(LiveProvider(live), current[..i])
      {
        FilterSnoc(LiveProvider(live), current, i);
        if LiveProvider(live)(current[i]) {
          providers := providers + [current[i]];
        }
      }
      assert current[..|current|] == current;
      var keeps := KeepsAtStartup(ProviderIds(providers), LiveIngresses(ns, live));
      var existing := spec.value.matchRules.GetOr([]);
      var rules := [];
      for i := 0 to |existing|
        modifies {}
        invariant rules == Filter(keeps, existing[..i])
      {
        FilterSnoc(keeps, existing, i);
        if keeps(existing[i]) {
          rules := rules + [existing[i]];
        }
      }
      assert existing[..|existing|] == existing;
      CleanupEstablishes(ns, live, Contents(spec.value));
      spec := Some(Stored(dropsEmpty, WithContents(spec.value, State(rules, providers))));
      writes := writes + 1;
    }
  }
}
