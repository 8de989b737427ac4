/** The ext-auth resource: a static base from the configuration, and key tables
    and policy rules from the database (gpustack/gateway/ext_auth.py:227-300,
    410-636; gpustack/gateway/utils.py:1120-1175). */
module ExtAuth {
  import opened Lists
  import Traces

  datatype Json = Null | Bool(b: bool) | Num(n: int) | Str(s: string) | Arr(items: seq<Json>) | Obj(fields: map<string, Json>)

  type Table = map<string, Json>

  datatype Rule = Rule(ingress: seq<string>, config: Option<map<string, Json>>)

  datatype Spec = Spec(defaultConfig: Option<map<string, Json>>, matchRules: Option<seq<Rule>>, base: string)

  /** What a configuration contributes: the other fields of the spec, of its
      default config and of `local_auth`, and the gate on route names. */
  datatype Config = Config(base: string, fields: map<string, Json>, localFields: map<string, Json>, gate: Json)

  /** What the database contributes: the two tables, and one policy per route. */
  datatype Inputs = Inputs(keys: Table, refs: Table, policies: seq<Policy>)

  datatype Policy = Policy(ingresses: seq<string>, access: string)

  // ----- building and reading a spec ---------------------------------------

  function PolicyRule(p: Policy): Rule { Rule(p.ingresses, Some(map["access_policy" := Str(p.access)])) }

  /** `route_match_rules`: no rule at all is rendered as absent. */
  function MatchRules(policies: seq<Policy>): (r: Option<seq<Rule>>)
    ensures r != Some([])
  {
    if policies == [] then None else Some(Map((p: Policy) => PolicyRule(p), policies))
  }

  function WithTables(local: map<string, Json>, keys: Table, refs: Table): map<string, Json> {
    local["keys" := Obj(keys)]["refs" := Obj(refs)]
  }

  /** `ext_auth_spec`. */
  function FullSpec(cfg: Config, in_: Inputs): Spec {
    Spec(Some(cfg.fields["route_match_regexes" := cfg.gate]["local_auth" := Obj(WithTables(cfg.localFields, in_.keys, in_.refs))]),
         MatchRules(in_.policies), cfg.base)
  }

  const NO_INPUTS := Inputs(map[], map[], [])

  predicate Truthy(j: Json) {
    match j
    case Null => false
    case Bool(b) => b
    case Num(n) => n != 0
    case Str(s) => s != ""
    case Arr(items) => items != []
    case Obj(fields) => fields != map[]
  }

  predicate HasPolicy(r: Rule) {
    r.config.Some? && "access_policy" in r.config.value && Truthy(r.config.value["access_policy"])
  }

  function Owned(): Rule -> bool { (r: Rule) => HasPolicy(r) }

  function ConfigOf(spec: Option<Spec>): map<string, Json> {
    if spec.None? then map[] else spec.value.defaultConfig.GetOr(map[])
  }

  function ObjectAt(m: map<string, Json>, k: string): map<string, Json> {
    if k in m && m[k].Obj? then m[k].fields else map[]
  }

  /** `_database_owned_parts`: whatever is not recognizable counts as absent. */
  function KeysIn(spec: Option<Spec>): Table { ObjectAt(ObjectAt(ConfigOf(spec), "local_auth"), "keys") }

  function RefsIn(spec: Option<Spec>): Table { ObjectAt(ObjectAt(ConfigOf(spec), "local_auth"), "refs") }

  function PolicyRulesIn(spec: Option<Spec>): seq<Rule> {
    if spec.None? then [] else Filter(Owned(), spec.value.matchRules.GetOr([]))
  }

  function EntryWithoutFlag(entry: Json): Json {
    if entry.Obj? then Obj(entry.fields - {"unrestricted"}) else entry
  }

  /** `_without_unrestricted`. */
  function WithoutUnrestricted(table: Table): Table { map k | k in table :: EntryWithoutFlag(table[k]) }

  /** `ext_auth_init_spec_diff`: the base from the configuration, the rest from
      the live spec, without the flag. */
  function InitDiff(current: Option<Spec>, expected: Spec): Spec {
    if current.None? then expected else
    var config := expected.defaultConfig.GetOr(map[]);
    var local := WithTables(ObjectAt(config, "local_auth"), WithoutUnrestricted(KeysIn(current)), WithoutUnrestricted(RefsIn(current)));
    var rules := PolicyRulesIn(current);
    expected.(defaultConfig := Some(config["local_auth" := Obj(local)]),
              matchRules := if rules == [] then None else Some(rules))
  }

  /** `ext_auth_reconcile_spec_diff`: the tables and rules from the database, the
      rest from the live spec; a missing spec is rebuilt in full. */
  function ReconcileDiff(current: Option<Spec>, cfg: Config, in_: Inputs): Spec {
    if current.None? then FullSpec(cfg, in_) else
    var config := ConfigOf(current);
    var local := WithTables(ObjectAt(config, "local_auth"), in_.keys, in_.refs);
    current.value.(defaultConfig := Some(config["local_auth" := Obj(local)]["route_match_regexes" := cfg.gate]),
                   matchRules := MatchRules(in_.policies))
  }

  // ----- runs of restarts, reconciles and deletions ------------------------

  datatype Op = Restart(cfg: Config) | Reconcile(cfg: Config, in_: Inputs) | Delete

  /** What reads back after a write: some stores omit an empty list of rules. */
  function Stored(dropsEmpty: bool, s: Spec): Spec {
    if dropsEmpty && s.matchRules == Some([]) then s.(matchRules := None) else s
  }

  function Diff(current: Option<Spec>, op: Op): Option<Spec> {
    match op
    case Restart(cfg) => Some(InitDiff(current, FullSpec(cfg, NO_INPUTS)))
    case Reconcile(cfg, in_) => Some(ReconcileDiff(current, cfg, in_))
    case Delete => None
  }

  function Next(dropsEmpty: bool, current: Option<Spec>, op: Op): Option<Spec> {
    match Diff(current, op)
    case None => None
    case Some(s) => Some(Stored(dropsEmpty, s))
  }

  function Step(dropsEmpty: bool): (Option<Spec>, Op) -> Option<Spec> { (s, op) => Next(dropsEmpty, s, op) }

  function Run(dropsEmpty: bool, s: Option<Spec>, ops: seq<Op>): Option<Spec> {
    Traces.Run(Step(dropsEmpty), s, ops)
  }

  lemma RunSnoc(dropsEmpty: bool, s: Option<Spec>, ops: seq<Op>)
    requires ops != []
    ensures Run(dropsEmpty, s, ops) == Next(dropsEmpty, Run(dropsEmpty, s, ops[..|ops| - 1]), ops[|ops| - 1])
  {
    var front, last := ops[..|ops| - 1], [ops[|ops| - 1]];
    assert ops == front + last;
    Traces.RunConcat(Step(dropsEmpty), s, front, last);
    assert last[1..] == [];
    assert Traces.Run(Step(dropsEmpty), Run(dropsEmpty, s, front), last) == Step(dropsEmpty)(Run(dropsEmpty, s, front), last[0]);
  }

  /** The two tables of a spec. */
  datatype Tables = Tables(keys: Table, refs: Table)

  function TablesIn(spec: Option<Spec>): Tables { Tables(KeysIn(spec), RefsIn(spec)) }

  function Stripped(t: Tables): Tables { Tables(WithoutUnrestricted(t.keys), WithoutUnrestricted(t.refs)) }

  const EMPTY_TABLES := Tables(map[], map[])

  lemma StripTwice(t: Table)
    ensures WithoutUnrestricted(WithoutUnrestricted(t)) == WithoutUnrestricted(t)
  {
    var once, twice := WithoutUnrestricted(t), WithoutUnrestricted(WithoutUnrestricted(t));
    forall k | k in t ensures twice[k] == once[k] {
      if t[k].Obj? {
        var f := t[k].fields;
        assert f - {"unrestricted"} - {"unrestricted"} == f - {"unrestricted"};
      }
    }
  }

  lemma StripEmpty()
    ensures Stripped(EMPTY_TABLES) == EMPTY_TABLES
  {
    var e: Table := map[];
    assert WithoutUnrestricted(e) == e;
  }

  /** The same outside the tables, the gate and the rules. */
  predicate SameElsewhere(a: Spec, b: Spec) {
    var ca, cb := ConfigOf(Some(a)), ConfigOf(Some(b));
    && a.base == b.base
    && ca - {"local_auth", "route_match_regexes"} == cb - {"local_auth", "route_match_regexes"}
    && ObjectAt(ca, "local_auth") - {"keys", "refs"} == ObjectAt(cb, "local_auth") - {"keys", "refs"}
  }

  /** One rule per policy, in order, on its ingresses and declaring its access; no
      policy is no list. */
  ghost predicate RulesOf(rules: Option<seq<Rule>>, policies: seq<Policy>) {
    && (rules == None <==> policies == [])
    && (rules.Some? ==>
          && |rules.value| == |policies|
          && forall i :: 0 <= i < |policies| ==>
               && rules.value[i].ingress == policies[i].ingresses
               && rules.value[i].config == Some(map["access_policy" := Str(policies[i].access)]))
  }

  /** A reconcile sets the tables and the rules. */
  lemma ReconcileSetsTables(current: Option<Spec>, cfg: Config, in_: Inputs)
    ensures var s := ReconcileDiff(current, cfg, in_);
      TablesIn(Some(s)) == Tables(in_.keys, in_.refs) && RulesOf(s.matchRules, in_.policies)
  {
    var config := ReconcileDiff(current, cfg, in_).defaultConfig.value;
    assert "local_auth" in config && config["local_auth"].Obj?;
  }

  /** It also sets the gate. The rest of a live spec stays as it is; that of a
      missing one comes from the configuration. */
  lemma ReconcileKeepsRest(current: Option<Spec>, cfg: Config, in_: Inputs)
    ensures var s := ReconcileDiff(current, cfg, in_);
      && SameElsewhere(s, if current.Some? then current.value else Spec(Some(cfg.fields["local_auth" := Obj(cfg.localFields)]), None, cfg.base))
      && "route_match_regexes" in ConfigOf(Some(s)) && ConfigOf(Some(s))["route_match_regexes"] == cfg.gate
  {
    var config := ReconcileDiff(current, cfg, in_).defaultConfig.value;
    assert "local_auth" in config && config["local_auth"].Obj?;
  }

  /** The same fields with the same values, but for the flag. */
  ghost predicate LacksOnlyFlag(entry: Json, latest: Json) {
    && entry.Obj? && latest.Obj?
    && forall f :: (f in entry.fields <==> f in latest.fields && f != "unrestricted") &&
                   (f in entry.fields ==> entry.fields[f] == latest.fields[f])
  }

  /** The same keys; an entry that is an object has lost the flag and nothing else,
      any other entry is as it was. */
  ghost predicate CarriedOver(table: Table, was: Table) {
    forall key ::
      && (key in table <==> key in was)
      && (key in table && was[key].Obj? ==> LacksOnlyFlag(table[key], was[key]))
      && (key in table && !was[key].Obj? ==> table[key] == was[key])
  }

  lemma StrippedCarriesOver(table: Table)
    ensures CarriedOver(WithoutUnrestricted(table), table)
  {
    var stripped := WithoutUnrestricted(table);
    forall key | key in table ensures stripped[key] == EntryWithoutFlag(table[key]) {}
  }

  /** A restart carries the tables of the live spec over, without the flag. */
  lemma RestartStripsTables(current: Option<Spec>, cfg: Config)
    ensures var s := Some(InitDiff(current, FullSpec(cfg, NO_INPUTS)));
      && CarriedOver(KeysIn(s), KeysIn(current)) && CarriedOver(RefsIn(s), RefsIn(current))
      && TablesIn(s) == (if current.None? then EMPTY_TABLES else Stripped(TablesIn(current)))
  {
    var config := InitDiff(current, FullSpec(cfg, NO_INPUTS)).defaultConfig.value;
    assert "local_auth" in config && config["local_auth"].Obj?;
    StrippedCarriesOver(KeysIn(current));
    StrippedCarriesOver(RefsIn(current));
  }

  /** And it refreshes everything else from the configuration. */
  lemma RestartRefreshes(current: Option<Spec>, cfg: Config)
    ensures var s := InitDiff(current, FullSpec(cfg, NO_INPUTS));
      && s.base == cfg.base
      && ConfigOf(Some(s)) - {"local_auth"} == cfg.fields["route_match_regexes" := cfg.gate] - {"local_auth"}
      && ObjectAt(ConfigOf(Some(s)), "local_auth") - {"keys", "refs"} == cfg.localFields - {"keys", "refs"}
  {
    var config := InitDiff(current, FullSpec(cfg, NO_INPUTS)).defaultConfig.value;
    assert "local_auth" in config && config["local_auth"].Obj?;
  }

  // ----- where the tables come from ----------------------------------------

  /** The inputs of the latest reconcile, and what has happened since. */
  function LatestInputs(ops: seq<Op>): Option<Inputs> {
    if ops == [] then None
    else if ops[|ops| - 1].Reconcile? then Some(ops[|ops| - 1].in_)
    else LatestInputs(ops[..|ops| - 1])
  }

  predicate DeletedSince(ops: seq<Op>) {
    ops != [] && !ops[|ops| - 1].Reconcile? && (ops[|ops| - 1].Delete? || DeletedSince(ops[..|ops| - 1]))
  }

  predicate RestartedSince(ops: seq<Op>) {
    ops != [] && !ops[|ops| - 1].Reconcile? && (ops[|ops| - 1].Restart? || RestartedSince(ops[..|ops| - 1]))
  }

  /** The tables published last: by the latest reconcile, or else what the
      resource held to begin with. */
  function LastPublished(start: Option<Spec>, ops: seq<Op>): Tables {
    match LatestInputs(ops)
    case None => TablesIn(start)
    case Some(in_) => Tables(in_.keys, in_.refs)
  }

  /** Where the tables stand after any run, from any start, exactly: those
      published last; without the flag if a restart came since; empty if the
      resource was deleted since. There is no resource only right after a
      deletion. */
  lemma {:induction false} TablesAfterRun(dropsEmpty: bool, start: Option<Spec>, ops: seq<Op>)
    ensures ops != [] ==> (Run(dropsEmpty, start, ops).Some? <==> !ops[|ops| - 1].Delete?)
    ensures TablesIn(Run(dropsEmpty, start, ops)) ==
      if DeletedSince(ops) then EMPTY_TABLES
      else if RestartedSince(ops) then Stripped(LastPublished(start, ops))
      else LastPublished(start, ops)
    decreases |ops|
  {
    if ops != [] {
      var front, last := ops[..|ops| - 1], ops[|ops| - 1];
      TablesAfterRun(dropsEmpty, start, front);
      RunSnoc(dropsEmpty, start, ops);
      TablesAfterStep(dropsEmpty, Run(dropsEmpty, start, front), last);
      StripEmpty();
      StripTwice(LastPublished(start, front).keys);
      StripTwice(LastPublished(start, front).refs);
    }
  }

  lemma TablesAfterStep(dropsEmpty: bool, current: Option<Spec>, op: Op)
    ensures TablesIn(Next(dropsEmpty, current, op)) ==
      match op
      case Delete => EMPTY_TABLES
      case Reconcile(_, in_) => Tables(in_.keys, in_.refs)
      case Restart(_) => if current.None? then EMPTY_TABLES else Stripped(TablesIn(current))
  {
    match op {
      case Delete =>
      case Reconcile(cfg, in_) => ReconcileSetsTables(current, cfg, in_);
      case Restart(cfg) => RestartStripsTables(current, cfg);
    }
  }

  /** Safety of revocation and of restarts: after any run from any start, unless
      the resource was deleted since, both tables have exactly the keys that
      were published last, each with the entry published, which has lost the
      flag, and only that, if a restart came since. After a deletion they are
      empty until the next reconcile. */
  lemma PublishedKeysAfterRun(dropsEmpty: bool, start: Option<Spec>, ops: seq<Op>)
    ensures var now, last := TablesIn(Run(dropsEmpty, start, ops)), LastPublished(start, ops);
      if DeletedSince(ops) then now.keys == map[] && now.refs == map[]
      else if RestartedSince(ops) then CarriedOver(now.keys, last.keys) && CarriedOver(now.refs, last.refs)
      else now.keys == last.keys && now.refs == last.refs
  {
    TablesAfterRun(dropsEmpty, start, ops);
    StrippedCarriesOver(LastPublished(start, ops).keys);
    StrippedCarriesOver(LastPublished(start, ops).refs);
  }

  /** Every entry is one of `latest`, at most without its flag. */
  ghost predicate ComesFrom(table: Table, latest: Table) {
    forall key :: key in table ==>
      key in latest && (table[key] == latest[key] || LacksOnlyFlag(table[key], latest[key]))
  }

  /** In particular neither table ever has a key the latest reconcile dropped. */
  lemma RevokedKeysStayRevoked(dropsEmpty: bool, start: Option<Spec>, ops: seq<Op>)
    requires LatestInputs(ops).Some?
    ensures ComesFrom(KeysIn(Run(dropsEmpty, start, ops)), LatestInputs(ops).value.keys)
    ensures ComesFrom(RefsIn(Run(dropsEmpty, start, ops)), LatestInputs(ops).value.refs)
  {
    PublishedKeysAfterRun(dropsEmpty, start, ops);
    var s := Run(dropsEmpty, start, ops);
    assert TablesIn(s).keys == KeysIn(s) && TablesIn(s).refs == RefsIn(s);
  }

  predicate Flagged(entry: Json) { entry.Obj? && "unrestricted" in entry.fields }

  /** From a restart until the next reconcile the flag is published nowhere. */
  lemma RestartNeverPublishesFlag(dropsEmpty: bool, start: Option<Spec>, ops: seq<Op>, key: string)
    requires RestartedSince(ops)
    ensures var t := TablesIn(Run(dropsEmpty, start, ops));
      (key in t.keys ==> !Flagged(t.keys[key])) && (key in t.refs ==> !Flagged(t.refs[key]))
  {
    TablesAfterRun(dropsEmpty, start, ops);
  }

  // ----- writes ------------------------------------------------------------

  /** Whether applying the operation to what it left would write again. */
  predicate WritesAgain(dropsEmpty: bool, current: Option<Spec>, op: Op) {
    var left := Next(dropsEmpty, current, op);
    Diff(left, op) != left
  }

  lemma ReconcileTwice(current: Option<Spec>, cfg: Config, in_: Inputs)
    ensures ReconcileDiff(Some(ReconcileDiff(current, cfg, in_)), cfg, in_) == ReconcileDiff(current, cfg, in_)
  {
    var once := ReconcileDiff(current, cfg, in_);
    var twice := ReconcileDiff(Some(once), cfg, in_);
    var c := once.defaultConfig.value;
    var local := ObjectAt(c, "local_auth");
    assert c["local_auth"] == Obj(local);
    assert WithTables(local, in_.keys, in_.refs) == local;
    assert c["local_auth" := Obj(local)]["route_match_regexes" := cfg.gate] == c;
  }

  lemma RestartAfterCreation(cfg: Config)
    ensures InitDiff(Some(FullSpec(cfg, NO_INPUTS)), FullSpec(cfg, NO_INPUTS)) == FullSpec(cfg, NO_INPUTS)
  {
    var expected, none: Table := FullSpec(cfg, NO_INPUTS), map[];
    StripEmpty();
    var c := expected.defaultConfig.value;
    var local := ObjectAt(c, "local_auth");
    assert c["local_auth"] == Obj(local) && local["keys"] == Obj(none) && local["refs"] == Obj(none);
    assert KeysIn(Some(expected)) == none && RefsIn(Some(expected)) == none;
    assert WithTables(local, none, none) == local;
    assert c["local_auth" := Obj(local)] == c;
  }

  lemma RestartTwice(current: Spec, cfg: Config)
    ensures var once := InitDiff(Some(current), FullSpec(cfg, NO_INPUTS));
      InitDiff(Some(once), FullSpec(cfg, NO_INPUTS)) == once
  {
    var once := InitDiff(Some(current), FullSpec(cfg, NO_INPUTS));
    RestartStripsTables(Some(current), cfg);
    StripTwice(KeysIn(Some(current)));
    StripTwice(RefsIn(Some(current)));
    assert KeysIn(Some(once)) == WithoutUnrestricted(KeysIn(Some(current)));
    assert RefsIn(Some(once)) == WithoutUnrestricted(RefsIn(Some(current)));
    RestartKeepsRules(current, cfg);
  }

  /** A second reconcile or restart with unchanged inputs writes nothing, whether
      or not the store omits empty lists. */
  lemma UnchangedIsQuiet(dropsEmpty: bool, current: Option<Spec>, op: Op)
    ensures !WritesAgain(dropsEmpty, current, op)
  {
    match op {
      case Delete =>
      case Reconcile(cfg, in_) =>
        ReconcileTwice(current, cfg, in_);
        assert ReconcileDiff(current, cfg, in_).matchRules != Some([]);
      case Restart(cfg) =>
        if current.None? {
          RestartAfterCreation(cfg);
        } else {
          RestartTwice(current.value, cfg);
        }
        assert InitDiff(current, FullSpec(cfg, NO_INPUTS)).matchRules != Some([]);
    }
  }

  /** The live spec already says what the database says. */
  predicate UpToDate(current: Spec, cfg: Config, in_: Inputs) {
    && current.matchRules == MatchRules(in_.policies) && current.defaultConfig.Some?
    && var c := current.defaultConfig.value;
       && "route_match_regexes" in c && c["route_match_regexes"] == cfg.gate
       && "local_auth" in c && c["local_auth"].Obj?
       && var local := c["local_auth"].fields;
          "keys" in local && local["keys"] == Obj(in_.keys) && "refs" in local && local["refs"] == Obj(in_.refs)
  }

  /** A reconcile writes if and only if the live spec differs from the database:
      in a table, in the gate, or in the rules. In particular going from some
      rules to none is a write. */
  lemma ReconcileWritesIff(current: Spec, cfg: Config, in_: Inputs)
    ensures ReconcileDiff(Some(current), cfg, in_) == current <==> UpToDate(current, cfg, in_)
    ensures current.matchRules.Some? && in_.policies == [] ==> ReconcileDiff(Some(current), cfg, in_) != current
  {
    if UpToDate(current, cfg, in_) {
      var c := current.defaultConfig.value;
      var local := c["local_auth"].fields;
      assert WithTables(local, in_.keys, in_.refs) == local;
      assert c["local_auth" := Obj(local)]["route_match_regexes" := cfg.gate] == c;
    }
  }

  /** The rule has an access policy that Python does not take for false. */
  ghost predicate NamesPolicy(r: Rule) {
    && r.config.Some? && "access_policy" in r.config.value
    && r.config.value["access_policy"] !in {Null, Bool(false), Num(0), Str(""), Arr([]), Obj(map[])}
  }

  /** Rules survive restarts, in order: exactly those that name an access policy are
      left, so one added by hand without does not ride along. */
  lemma RestartKeepsRules(current: Spec, cfg: Config)
    ensures PolicyRulesIn(Some(InitDiff(Some(current), FullSpec(cfg, NO_INPUTS)))) == PolicyRulesIn(Some(current))
    ensures InitDiff(Some(current), FullSpec(cfg, NO_INPUTS)).matchRules.GetOr([]) == PolicyRulesIn(Some(current))
    ensures forall r :: r in PolicyRulesIn(Some(current)) <==> r in current.matchRules.GetOr([]) && NamesPolicy(r)
  {
    FilterMembers(Owned(), current.matchRules.GetOr([]));
    forall r: Rule ensures HasPolicy(r) <==> NamesPolicy(r) {}
    var rules := PolicyRulesIn(Some(current));
    forall r | r in rules ensures HasPolicy(r) {
      FilterMember(Owned(), current.matchRules.GetOr([]), r);
    }
    FilterAll(Owned(), rules);
  }

  // ----- where the policies come from --------------------------------------

  /** The policy rules published last. */
  function LastRules(start: Option<Spec>, ops: seq<Op>): seq<Rule> {
    match LatestInputs(ops)
    case None => PolicyRulesIn(start)
    case Some(in_) => Filter(Owned(), MatchRules(in_.policies).GetOr([]))
  }

  /** After any run, from any start, the policy rules are those published last,
      in order, and none if the resource was deleted since. */
  lemma {:induction false} RulesAfterRun(dropsEmpty: bool, start: Option<Spec>, ops: seq<Op>)
    ensures PolicyRulesIn(Run(dropsEmpty, start, ops)) == if DeletedSince(ops) then [] else LastRules(start, ops)
    decreases |ops|
  {
    if ops != [] {
      var front, last := ops[..|ops| - 1], ops[|ops| - 1];
      RulesAfterRun(dropsEmpty, start, front);
      RunSnoc(dropsEmpty, start, ops);
      var before := Run(dropsEmpty, start, front);
      if last.Restart? && before.Some? {
        RestartKeepsRules(before.value, last.cfg);
      }
    }
  }

  ghost predicate Declares(r: Rule, p: Policy) {
    p.access != "" && r.ingress == p.ingresses && r.config == Some(map["access_policy" := Str(p.access)])
  }

  /** After any run with a reconcile in it, a rule declares a policy on the gateway
      if and only if the latest reconcile had a route with just that policy on
      just those ingresses, and the resource was not deleted since: a restart
      neither loses a policy nor brings an old one back. */
  lemma PoliciesAfterRun(dropsEmpty: bool, start: Option<Spec>, ops: seq<Op>, r: Rule)
    requires LatestInputs(ops).Some?
    ensures r in PolicyRulesIn(Run(dropsEmpty, start, ops)) <==>
      !DeletedSince(ops) && exists p :: p in LatestInputs(ops).value.policies && Declares(r, p)
  {
    RulesAfterRun(dropsEmpty, start, ops);
    var policies := LatestInputs(ops).value.policies;
    var rules := MatchRules(policies).GetOr([]);
    FilterMember(Owned(), rules, r);
    assert |rules| == |policies|;
    if r in rules && HasPolicy(r) {
      var i :| 0 <= i < |rules| && rules[i] == r;
      assert policies[i] in policies && Declares(r, policies[i]);
    }
    forall p | p in policies && Declares(r, p) ensures r in rules && HasPolicy(r) {
      var i :| 0 <= i < |policies| && policies[i] == p;
      assert rules[i] == PolicyRule(p) == r;
    }
  }

  // ----- the resource ------------------------------------------------------

  class Plugin {
    var spec: Option<Spec>
    var writes: nat
    const dropsEmpty: bool

    constructor (dropsEmpty: bool)
      ensures spec == None && writes == 0 && this.dropsEmpty == dropsEmpty
    {
      spec, writes, this.dropsEmpty := None, 0, dropsEmpty;
    }

    /** Create, or edit if the diff changed anything. */
    method Ensure(expected: Spec)
      modifies this
      ensures spec == if old(spec) == Some(expected) then old(spec) else Some(Stored(dropsEmpty, expected))
      ensures writes == old(writes) + if old(spec) == Some(expected) then 0 else 1
    {
      if spec != Some(expected) {
        spec := Some(Stored(dropsEmpty, expected));
        writes := writes + 1;
      }
    }

    /** The server starts. */
    method OnStart(cfg: Config)
      modifies this
      ensures spec == Next(dropsEmpty, old(spec), Restart(cfg))
      ensures writes == old(writes) + if Diff(old(spec), Restart(cfg)) == old(spec) then 0 else 1
    {
      var expected := FullSpec(cfg, NO_INPUTS);
      if spec.Some? {
        var config := expected.defaultConfig.GetOr(map[]);
        var local := ObjectAt(config, "local_auth");
        local := local["keys" := Obj(WithoutUnrestricted(KeysIn(spec)))];
        local := local["refs" := Obj(WithoutUnrestricted(RefsIn(spec)))];
        config := config["local_auth" := Obj(local)];
        var rules := PolicyRulesIn(spec);
        expected := expected.(defaultConfig := Some(config), matchRules := if rules == [] then None else Some(rules));
      }
      Ensure(expected);
    }

    /** The reconciler has recomputed the tables and the policies. */
    method OnReconcile(cfg: Config, in_: Inputs)
      modifies this
      ensures spec == Next(dropsEmpty, old(spec), Reconcile(cfg, in_))
      ensures writes == old(writes) + if Diff(old(spec), Reconcile(cfg, in_)) == old(spec) then 0 else 1
      ensures TablesIn(spec) == Tables(in_.keys, in_.refs)
    {
      ReconcileSetsTables(spec, cfg, in_);
      if spec.None? {
        Ensure(FullSpec(cfg, in_));
      } else {
        var live := spec.value;
        var config := live.defaultConfig.GetOr(map[]);
        var local := if "local_auth" in config && config["local_auth"].Obj? then config["local_auth"].fields else map[];
        local := local["keys" := Obj(in_.keys)];
        local := local["refs" := Obj(in_.refs)];
        config := config["local_auth" := Obj(local)];
        config := config["route_match_regexes" := cfg.gate];
        live := live.(defaultConfig := Some(config));
        live := live.(matchRules := MatchRules(in_.policies));
        Ensure(live);
      }
    }
  }
}
