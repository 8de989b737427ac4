/** One reconcile of the ai-proxy resource: rules are replaced by owner, then
    providers are merged against the resulting rules
    (gpustack/gateway/utils.py:1588-1678, 1890-1920). */
module AiProxyMerge {
  import opened Lists
  import opened StableSort
  import opened Text
  import opened Names

  datatype Rule = Rule(config: Option<map<string, string>>, ingress: Option<seq<string>>,
                       service: Option<seq<string>>, rest: string)

  datatype Settings = SelfHosted(apiTokens: Option<seq<string>>, nativeAnthropic: bool) | External(text: string)

  datatype Provider = Provider(id: Option<string>, settings: Settings)

  /** The two lists of the resource. */
  datatype State = State(rules: seq<Rule>, providers: seq<Provider>)

  /** What one reconcile wants: its entries, and what it owns, either by
      provider id prefix or by ingress. */
  datatype Desired = Desired(providers: seq<Provider>, rules: seq<Rule>,
                             prefix: Option<string>, owned: set<string>)

  function RuleProviderId(r: Rule): Option<string> {
    match r.config
    case None => None
    case Some(c) => if "activeProviderId" in c then Some(c["activeProviderId"]) else None
  }

  function Ingresses(r: Rule): seq<string> { r.ingress.GetOr([]) }

  function Services(r: Rule): seq<string> { r.service.GetOr([]) }

  /** Python's `",".join(parts)`. */
  function CommaJoin(parts: seq<string>): string {
    if parts == [] then "" else JoinWith(parts, ',')
  }

  function RuleKey(): Rule -> Key {
    (r: Rule) => [RuleProviderId(r).GetOr(""), CommaJoin(Ingresses(r)), CommaJoin(Services(r))]
  }

  function ProviderKey(): Provider -> Key {
    (p: Provider) => [p.id.GetOr("")]
  }

  predicate Touches(names: set<string>, r: Rule) {
    exists i :: i in Ingresses(r) && i in names
  }

  predicate OwnsId(d: Desired, id: string) {
    d.prefix.Some? && StartsWith(id, d.prefix.value)
  }

  predicate DropsRule(d: Desired, r: Rule) {
    (RuleProviderId(r).Some? && OwnsId(d, RuleProviderId(r).value)) || Touches(d.owned, r)
  }

  function KeepsRule(d: Desired): Rule -> bool { (r: Rule) => !DropsRule(d, r) }

  function ExpectedIds(ps: seq<Provider>): set<string> {
    set p | p in ps && p.id.Some? && p.id.value != "" :: p.id.value
  }

  /** The provider ids the rules point at. */
  function Referenced(rules: seq<Rule>): set<string> {
    set r | r in rules && RuleProviderId(r).Some? && RuleProviderId(r).value != "" :: RuleProviderId(r).value
  }

  predicate DropsProvider(d: Desired, refs: set<string>, p: Provider) {
    && p.id.Some?
    && var id := p.id.value;
       OwnsId(d, id) || id in ExpectedIds(d.providers) || (Collectable(id) && id !in refs)
  }

  function KeepsProvider(d: Desired, refs: set<string>): Provider -> bool {
    (p: Provider) => !DropsProvider(d, refs, p)
  }

  function MergeRules(d: Desired, rules: seq<Rule>): seq<Rule> {
    Replace(RuleKey(), d.rules, KeepsRule(d), rules)
  }

  function MergeProviders(d: Desired, refs: set<string>, providers: seq<Provider>): seq<Provider> {
    Replace(ProviderKey(), d.providers, KeepsProvider(d, refs), providers)
  }

  function Merge(d: Desired, st: State): State {
    var rules := MergeRules(d, st.rules);
    State(rules, MergeProviders(d, Referenced(rules), st.providers))
  }

  /** The entries with a given id, in order. */
  function Entries(ps: seq<Provider>, id: string): seq<Provider> {
    Filter(HasKey(ProviderKey(), [id]), ps)
  }

  /** What the two producers of desired entries guarantee: every rule is owned by
      the reconcile and points at one of its providers, and every provider has
      an id some rule points at. */
  ghost predicate WellFormed(d: Desired) {
    && (forall r :: r in d.rules ==> DropsRule(d, r) && RuleProviderId(r).Some? &&
                                     RuleProviderId(r).value in ExpectedIds(d.providers))
    && (forall p :: p in d.providers ==> p.id.Some? && p.id.value != "" && p.id.value in Referenced(d.rules))
  }

  lemma MergedRule(d: Desired, rules: seq<Rule>, r: Rule)
    ensures r in MergeRules(d, rules) <==> r in d.rules || (r in rules && !DropsRule(d, r))
  {
    ReplaceMember(RuleKey(), d.rules, KeepsRule(d), rules, r);
  }

  lemma MergedProvider(d: Desired, refs: set<string>, ps: seq<Provider>, p: Provider)
    ensures p in MergeProviders(d, refs, ps) <==> p in d.providers || (p in ps && !DropsProvider(d, refs, p))
  {
    ReplaceMember(ProviderKey(), d.providers, KeepsProvider(d, refs), ps, p);
  }

  ghost predicate Plain(parts: seq<string>) {
    forall p :: p in parts ==> p != "" && ',' !in p
  }

  lemma CommaJoinInjective(a: seq<string>, b: seq<string>)
    requires Plain(a) && Plain(b)
    ensures CommaJoin(a) == CommaJoin(b) <==> a == b
  {
    if a != [] { SplitOfJoin(a, ','); }
    if b != [] { SplitOfJoin(b, ','); }
    assert a != [] ==> a[0] in a;
    assert b != [] ==> b[0] in b;
  }

  /** The sort key tells rules apart by exactly what they point at, the ingresses
      they name and the services they name, so the order of the rule list leaves
      nothing to chance between rules that differ there. */
  lemma RuleKeyIdentifies(a: Rule, b: Rule)
    requires Plain(Ingresses(a)) && Plain(Services(a)) && Plain(Ingresses(b)) && Plain(Services(b))
    ensures RuleKey()(a) == RuleKey()(b) <==>
      && RuleProviderId(a).GetOr("") == RuleProviderId(b).GetOr("")
      && Ingresses(a) == Ingresses(b) && Services(a) == Services(b)
  {
    CommaJoinInjective(Ingresses(a), Ingresses(b));
    CommaJoinInjective(Services(a), Services(b));
    var ka, kb := RuleKey()(a), RuleKey()(b);
    assert ka == kb <==> ka[0] == kb[0] && ka[1] == kb[1] && ka[2] == kb[2];
  }

  /** Rules in order: by provider id, then by ingresses, then by services. */
  ghost predicate RulesInOrder(x: Rule, y: Rule) {
    var p, q := RuleProviderId(x).GetOr(""), RuleProviderId(y).GetOr("");
    var i, j := CommaJoin(Ingresses(x)), CommaJoin(Ingresses(y));
    if p != q then StringLeq(p, q)
    else if i != j then StringLeq(i, j)
    else StringLeq(CommaJoin(Services(x)), CommaJoin(Services(y)))
  }

  /** A step leaves both lists sorted: the rules as said, the providers by id. */
  lemma MergeSorts(d: Desired, st: State)
    ensures var rules := Merge(d, st).rules;
      forall i, j :: 0 <= i < j < |rules| ==> RulesInOrder(rules[i], rules[j])
    ensures var ps := Merge(d, st).providers;
      forall i, j :: 0 <= i < j < |ps| ==> StringLeq(ps[i].id.GetOr(""), ps[j].id.GetOr(""))
  {
    var rules, ps := Merge(d, st).rules, Merge(d, st).providers;
    SortSorted(RuleKey(), d.rules + Filter(KeepsRule(d), st.rules));
    SortSorted(ProviderKey(), d.providers + Filter(KeepsProvider(d, Referenced(rules)), st.providers));
    forall i, j | 0 <= i < j < |rules| ensures RulesInOrder(rules[i], rules[j]) {
      RuleKeyOrder(rules[i], rules[j]);
    }
    forall i, j | 0 <= i < j < |ps| ensures StringLeq(ps[i].id.GetOr(""), ps[j].id.GetOr("")) {
      assert KeyLeq(ProviderKey()(ps[i]), ProviderKey()(ps[j]));
      SingleKeyOrder(ps[i].id.GetOr(""), ps[j].id.GetOr(""));
    }
  }

  lemma SingleKeyOrder(a: string, b: string)
    ensures KeyLeq([a], [b]) <==> StringLeq(a, b)
  {
    assert [a][1..] == [] && [b][1..] == [];
    StringTotal(a, b);
  }

  lemma RuleKeyOrder(x: Rule, y: Rule)
    ensures KeyLeq(RuleKey()(x), RuleKey()(y)) <==> RulesInOrder(x, y)
  {
    var a, b := RuleKey()(x), RuleKey()(y);
    assert a[1..] == [a[1], a[2]] && b[1..] == [b[1], b[2]];
    assert a[1..][1..] == [a[2]] && b[1..][1..] == [b[2]];
    SingleKeyOrder(a[2], b[2]);
    assert KeyLeq(a[1..], b[1..]) == (if a[1] == b[1] then KeyLeq([a[2]], [b[2]]) else StringLeq(a[1], b[1]));
  }

  // ----- what one step leaves ----------------------------------------------

  /** A rule is there after a step if and only if the step expects it, or it was
      there, names none of the step's ingresses, and does not point at a
      provider under the step's prefix. */
  lemma RulesAfterMerge(d: Desired, st: State, r: Rule)
    ensures r in Merge(d, st).rules <==>
      r in d.rules ||
      (r in st.rules && (forall i :: i in Ingresses(r) ==> i !in d.owned) &&
       !(d.prefix.Some? && RuleProviderId(r).Some? && d.prefix.value <= RuleProviderId(r).value))
  {
    MergedRule(d, st.rules, r);
  }

  /** What stands under a provider id after a step, exactly and in order: the
      step's entries if it expects the id; else nothing if the id is under its
      prefix, or may be collected and no resulting rule names it; else what
      stood there before. */
  lemma EntriesAfterMerge(d: Desired, st: State, id: string)
    requires WellFormed(d) && id != ""
    ensures Entries(Merge(d, st).providers, id) ==
      if id in ExpectedIds(d.providers) then Entries(d.providers, id)
      else if d.prefix.Some? && d.prefix.value <= id then []
      else if Collectable(id) && (forall r :: r in Merge(d, st).rules ==> RuleProviderId(r) != Some(id)) then []
      else Entries(st.providers, id)
  {
    var f := HasKey(ProviderKey(), [id]);
    var refs := Referenced(Merge(d, st).rules);
    var keep := KeepsProvider(d, refs);
    var own, prior := Entries(d.providers, id), Entries(st.providers, id);
    FilterReplace(f, ProviderKey(), d.providers, keep, st.providers);
    FilterSwap(f, keep, st.providers);
    EntriesHaveId(d.providers, id);
    EntriesHaveId(st.providers, id);
    assert id in refs <==> exists r :: r in Merge(d, st).rules && RuleProviderId(r) == Some(id);
    if id in ExpectedIds(d.providers) {
      FilterNone(keep, prior);
      assert own + [] == own;
      SortSameKey(ProviderKey(), [id], own);
    } else {
      FilterNone(f, d.providers);
      assert [] + Filter(keep, prior) == Filter(keep, prior);
      if OwnsId(d, id) || (Collectable(id) && id !in refs) {
        FilterNone(keep, prior);
      } else {
        FilterAll(keep, prior);
      }
      SortSameKey(ProviderKey(), [id], Filter(keep, prior));
    }
  }

  function Nameless(): Provider -> bool { (p: Provider) => p.id.None? }

  /** Provider entries without an id are nobody's: a step leaves them all, in
      order. */
  lemma NamelessProvidersStay(d: Desired, st: State)
    requires WellFormed(d)
    ensures Filter(Nameless(), Merge(d, st).providers) == Filter(Nameless(), st.providers)
  {
    var keep := KeepsProvider(d, Referenced(Merge(d, st).rules));
    var prior := Filter(Nameless(), st.providers);
    FilterReplace(Nameless(), ProviderKey(), d.providers, keep, st.providers);
    FilterSwap(Nameless(), keep, st.providers);
    FilterNone(Nameless(), d.providers);
    FilterMembers(Nameless(), st.providers);
    FilterAll(keep, prior);
    assert [] + prior == prior;
    SortSameKey(ProviderKey(), [""], prior);
  }

  lemma EntriesHaveId(ps: seq<Provider>, id: string)
    requires id != ""
    ensures forall p: Provider :: p in Entries(ps, id) ==> p.id == Some(id) && ProviderKey()(p) == [id]
  {
    forall p: Provider | p in Entries(ps, id) ensures p.id == Some(id) && ProviderKey()(p) == [id] {
      FilterMember(HasKey(ProviderKey(), [id]), ps, p);
    }
  }

  // ----- idempotence -------------------------------------------------------

  /** A reconcile repeated on its own output yields the same two lists, order
      included. */
  lemma MergeIdempotent(d: Desired, st: State)
    requires WellFormed(d)
    ensures Merge(d, Merge(d, st)) == Merge(d, st)
  {
    ReplaceIdempotent(RuleKey(), d.rules, KeepsRule(d), st.rules);
    var refs := Referenced(MergeRules(d, st.rules));
    ReplaceIdempotent(ProviderKey(), d.providers, KeepsProvider(d, refs), st.providers);
  }

  // ----- no dangling rules, no uncollected providers -----------------------

  function ProviderIds(ps: seq<Provider>): set<string> {
    set p | p in ps && p.id.Some? :: p.id.value
  }

  ghost predicate Dangling(r: Rule, ps: seq<Provider>) {
    RuleProviderId(r).Some? && RuleProviderId(r).value !in ProviderIds(ps)
  }

  ghost predicate NoDangling(st: State) {
    forall r :: r in st.rules ==> !Dangling(r, st.providers)
  }

  /** Every provider that may be garbage collected is named by some rule. */
  ghost predicate Collected(st: State) {
    forall p :: p in st.providers && p.id.Some? && Collectable(p.id.value) ==> p.id.value in Referenced(st.rules)
  }

  lemma IdStays(d: Desired, rules: seq<Rule>, ps: seq<Provider>, r: Rule)
    requires WellFormed(d) && r in MergeRules(d, rules) && RuleProviderId(r).Some?
    requires RuleProviderId(r).value in ProviderIds(ps) || r in d.rules
    ensures RuleProviderId(r).value in ProviderIds(MergeProviders(d, Referenced(MergeRules(d, rules)), ps))
  {
    var id := RuleProviderId(r).value;
    var refs := Referenced(MergeRules(d, rules));
    if id in ExpectedIds(d.providers) {
      var p :| p in d.providers && p.id == Some(id);
      MergedProvider(d, refs, ps, p);
    } else {
      var p :| p in ps && p.id == Some(id);
      MergedRule(d, rules, r);
      assert id == "" || id in refs;
      MergedProvider(d, refs, ps, p);
    }
  }

  /** A step never makes a rule dangle: a rule that dangles afterwards was
      there, dangling, before. */
  lemma MergeMakesNoneDangle(d: Desired, st: State, r: Rule)
    requires WellFormed(d) && r in Merge(d, st).rules && Dangling(r, Merge(d, st).providers)
    ensures r in st.rules && Dangling(r, st.providers)
  {
    MergedRule(d, st.rules, r);
    if r in d.rules || !Dangling(r, st.providers) {
      IdStays(d, st.rules, st.providers, r);
      assert false;
    }
  }

  lemma MergeKeepsNoDangling(d: Desired, st: State)
    requires WellFormed(d) && NoDangling(st)
    ensures NoDangling(Merge(d, st))
  {
    forall r | r in Merge(d, st).rules ensures !Dangling(r, Merge(d, st).providers) {
      if Dangling(r, Merge(d, st).providers) {
        MergeMakesNoneDangle(d, st, r);
        assert false;
      }
    }
  }

  /** Whatever was there before, a step leaves nothing to collect. */
  lemma MergeCollects(d: Desired, st: State)
    requires WellFormed(d)
    ensures Collected(Merge(d, st))
  {
    var st' := Merge(d, st);
    forall p | p in st'.providers && p.id.Some? && Collectable(p.id.value) ensures p.id.value in Referenced(st'.rules) {
      MergedProvider(d, Referenced(st'.rules), st.providers, p);
      if p in d.providers {
        var r :| r in d.rules && RuleProviderId(r) == p.id;
        MergedRule(d, st.rules, r);
      }
    }
  }

  // ----- independent reconciles commute ------------------------------------

  /** Neither owns an entry of the other. */
  ghost predicate Independent(a: Desired, b: Desired) {
    && (forall r :: r in a.rules ==> !DropsRule(b, r))
    && (forall r :: r in b.rules ==> !DropsRule(a, r))
    && KeysApart(RuleKey(), a.rules, b.rules)
    && (forall p :: p in a.providers && p.id.Some? ==> !OwnsId(b, p.id.value))
    && (forall p :: p in b.providers && p.id.Some? ==> !OwnsId(a, p.id.value))
  }

  /** They say the same about every provider both of them want. */
  ghost predicate Agree(a: Desired, b: Desired) {
    forall id :: id in ExpectedIds(a.providers) && id in ExpectedIds(b.providers) ==>
      Entries(a.providers, id) == Entries(b.providers, id)
  }

  lemma RulesCommute(a: Desired, b: Desired, rules: seq<Rule>)
    requires Independent(a, b)
    ensures MergeRules(b, MergeRules(a, rules)) == MergeRules(a, MergeRules(b, rules))
  {
    ReplaceCommutes(RuleKey(), a.rules, KeepsRule(a), b.rules, KeepsRule(b), rules);
  }

  /** The providers of the first of two reconciles that survive the second. */
  function NotExpected(d: Desired): Provider -> bool {
    (p: Provider) => !(p.id.Some? && p.id.value in ExpectedIds(d.providers))
  }

  lemma SecondKeepsFirst(a: Desired, b: Desired, rules: seq<Rule>)
    requires WellFormed(a) && Independent(a, b)
    ensures Filter(KeepsProvider(b, Referenced(MergeRules(b, MergeRules(a, rules)))), a.providers) ==
      Filter(NotExpected(b), a.providers)
  {
    var refs := Referenced(MergeRules(b, MergeRules(a, rules)));
    forall p | p in a.providers ensures KeepsProvider(b, refs)(p) == NotExpected(b)(p) {
      var r :| r in a.rules && RuleProviderId(r) == p.id;
      MergedRule(a, rules, r);
      MergedRule(b, MergeRules(a, rules), r);
    }
    FilterAgree(KeepsProvider(b, refs), NotExpected(b), a.providers);
  }

  /** What is left of the providers that were there before both reconciles. */
  function Untouched(a: Desired, b: Desired, refs: set<string>): Provider -> bool {
    (p: Provider) => !DropsProvider(a, refs, p) && !DropsProvider(b, refs, p)
  }

  /** Collecting in between makes no difference: an id the final rules refer to,
      and neither reconcile wants, was referred to all along. */
  lemma OldProvidersLeft(a: Desired, b: Desired, rules: seq<Rule>, ps: seq<Provider>)
    requires WellFormed(a) && WellFormed(b)
    ensures var first := Referenced(MergeRules(a, rules));
      var last := Referenced(MergeRules(b, MergeRules(a, rules)));
      Filter(KeepsProvider(b, last), Filter(KeepsProvider(a, first), ps)) == Filter(Untouched(a, b, last), ps)
  {
    var mid := MergeRules(a, rules);
    var first, last := Referenced(mid), Referenced(MergeRules(b, mid));
    var f, g := KeepsProvider(b, last), KeepsProvider(a, first);
    FilterBoth(f, g, ps);
    forall p | p in ps ensures (f(p) && g(p)) == Untouched(a, b, last)(p) {
      if p.id.Some? && p.id.value in last && p.id.value !in ExpectedIds(b.providers) {
        var r :| r in MergeRules(b, mid) && RuleProviderId(r) == p.id;
        MergedRule(b, mid, r);
        assert p.id.value in first;
      }
    }
    FilterAgree(x => f(x) && g(x), Untouched(a, b, last), ps);
  }

  /** The providers after two reconciles, in one expression. */
  lemma TwoMergesOfProviders(a: Desired, b: Desired, st: State)
    requires WellFormed(a) && WellFormed(b) && Independent(a, b)
    ensures var last := Referenced(Merge(b, Merge(a, st)).rules);
      Merge(b, Merge(a, st)).providers ==
        Sort(ProviderKey(), b.providers + (Filter(NotExpected(b), a.providers) +
                                           Filter(Untouched(a, b, last), st.providers)))
  {
    var mid := MergeRules(a, st.rules);
    var first, last := Referenced(mid), Referenced(MergeRules(b, mid));
    ReplaceTwice(ProviderKey(), a.providers, KeepsProvider(a, first), b.providers, KeepsProvider(b, last), st.providers);
    SecondKeepsFirst(a, b, st.rules);
    OldProvidersLeft(a, b, st.rules, st.providers);
  }

  /** Under one key, the entries of the later reconcile win, then those of the
      earlier one, then what was there before. */
  lemma EntriesAfterTwo(a: Desired, b: Desired, left: seq<Provider>, k: Key)
    requires WellFormed(a) && WellFormed(b)
    requires forall p :: p in left ==> NotExpected(a)(p) && NotExpected(b)(p)
    ensures var f := HasKey(ProviderKey(), k);
      Filter(f, b.providers + (Filter(NotExpected(b), a.providers) + left)) ==
        if k != [] && k[0] in ExpectedIds(b.providers) && k == [k[0]] then Filter(f, b.providers)
        else if k != [] && k[0] in ExpectedIds(a.providers) && k == [k[0]] then Filter(f, a.providers)
        else Filter(f, left)
  {
    var f := HasKey(ProviderKey(), k);
    var mid := Filter(NotExpected(b), a.providers);
    FilterConcat(f, b.providers, mid + left);
    FilterConcat(f, mid, left);
    FilterSwap(f, NotExpected(b), a.providers);
    var fa := Filter(f, a.providers);
    FilterMembers(f, a.providers);
    if k != [] && k == [k[0]] && k[0] in ExpectedIds(b.providers) {
      FilterNone(NotExpected(b), fa);
      FilterNone(f, left);
    } else {
      FilterNone(f, b.providers);
      FilterAll(NotExpected(b), fa);
      if k != [] && k == [k[0]] && k[0] in ExpectedIds(a.providers) {
        FilterNone(f, left);
      } else {
        FilterNone(f, a.providers);
      }
    }
  }

  lemma LeftNotExpected(a: Desired, b: Desired, refs: set<string>, ps: seq<Provider>)
    ensures forall p :: p in Filter(Untouched(a, b, refs), ps) ==> NotExpected(a)(p) && NotExpected(b)(p)
  {
    forall p | p in Filter(Untouched(a, b, refs), ps) ensures NotExpected(a)(p) && NotExpected(b)(p) {
      FilterMember(Untouched(a, b, refs), ps, p);
    }
  }

  /** Order independence, exactly: two independent reconciles commute on a
      resource if and only if they agree on the providers both want. */
  lemma MergesCommuteIff(a: Desired, b: Desired, st: State)
    requires WellFormed(a) && WellFormed(b) && Independent(a, b)
    ensures Merge(b, Merge(a, st)) == Merge(a, Merge(b, st)) <==> Agree(a, b)
    ensures Merge(b, Merge(a, st)).rules == Merge(a, Merge(b, st)).rules
  {
    RulesCommute(a, b, st.rules);
    var refs := Referenced(Merge(b, Merge(a, st)).rules);
    TwoMergesOfProviders(a, b, st);
    TwoMergesOfProviders(b, a, st);
    var left := Filter(Untouched(a, b, refs), st.providers);
    FilterAgree(Untouched(a, b, refs), Untouched(b, a, refs), st.providers);
    LeftNotExpected(a, b, refs, st.providers);
    var ab := b.providers + (Filter(NotExpected(b), a.providers) + left);
    var ba := a.providers + (Filter(NotExpected(a), b.providers) + left);
    if Agree(a, b) {
      forall k ensures Filter(HasKey(ProviderKey(), k), ab) == Filter(HasKey(ProviderKey(), k), ba) {
        EntriesAfterTwo(a, b, left, k);
        EntriesAfterTwo(b, a, left, k);
      }
      SortedByFilters(ProviderKey(), ab, ba);
    } else {
      var id :| id in ExpectedIds(a.providers) && id in ExpectedIds(b.providers) &&
        Entries(a.providers, id) != Entries(b.providers, id);
      EntriesAfterTwo(a, b, left, [id]);
      EntriesAfterTwo(b, a, left, [id]);
      SortStable(ProviderKey(), [id], ab);
      SortStable(ProviderKey(), [id], ba);
    }
  }
}
