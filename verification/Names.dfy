/** The names the gateway resources are keyed by, and the one parser that reads
    a name back (gpustack/gateway/utils.py). */
module Names {
  import opened Lists
  import opened Text

  // ----- decimal numbers ---------------------------------------------------

  predicate IsDigit(c: char) { '0' <= c <= '9' }

  predicate AllDigits(s: string) { forall i :: 0 <= i < |s| ==> IsDigit(s[i]) }

  /** Python's `str(n)`. */
  function Decimal(n: nat): (s: string)
    ensures s != [] && AllDigits(s)
  {
    if n < 10 then [('0' as int + n) as char]
    else Decimal(n / 10) + [('0' as int + n % 10) as char]
  }

  /** Python's `int(s)` on a string of digits. */
  function Value(s: string): nat
    requires AllDigits(s)
  {
    if s == [] then 0
    else 10 * Value(s[..|s| - 1]) + (s[|s| - 1] as int - '0' as int)
  }

  lemma {:induction false} ValueOfDecimal(n: nat)
    ensures Value(Decimal(n)) == n
  {
    if n < 10 {
      assert Decimal(n)[..0] == [];
    } else {
      ValueOfDecimal(n / 10);
      assert Decimal(n)[..|Decimal(n)| - 1] == Decimal(n / 10);
    }
  }

  /** And back: `Decimal` prints the only form without leading zeros. */
  lemma {:induction false} DecimalOfValue(s: string)
    requires s != [] && AllDigits(s) && (s[0] != '0' || |s| == 1)
    ensures Decimal(Value(s)) == s
    ensures Value(s) == 0 ==> s == "0"
  {
    var front, last := s[..|s| - 1], s[|s| - 1];
    assert s == front + [last];
    var d := last as int - '0' as int;
    assert ('0' as int + d) as char == last;
    if front == [] {
      assert Value(s) == d;
    } else {
      assert front[0] == s[0];
      DecimalOfValue(front);
      assert Value(s) == 10 * Value(front) + d;
    }
  }

  /** The longest run of digits at the start of `s`. */
  function DigitRun(s: string): (r: string)
    ensures AllDigits(r) && r <= s
    ensures |r| < |s| ==> !IsDigit(s[|r|])
  {
    if s == [] || !IsDigit(s[0]) then [] else [s[0]] + DigitRun(s[1..])
  }

  predicate StartsWithNonDigit(s: string) { s != [] ==> !IsDigit(s[0]) }

  lemma {:induction false} DigitRunOf(d: string, rest: string)
    requires AllDigits(d) && StartsWithNonDigit(rest)
    ensures DigitRun(d + rest) == d
  {
    if d != [] {
      assert (d + rest)[1..] == d[1..] + rest;
      DigitRunOf(d[1..], rest);
    } else {
      assert d + rest == rest;
    }
  }

  /** A number followed by something that is not a digit is read back uniquely. */
  lemma NumberThenRest(a: nat, b: nat, s: string, t: string)
    requires StartsWithNonDigit(s) && StartsWithNonDigit(t)
    requires Decimal(a) + s == Decimal(b) + t
    ensures a == b && s == t
  {
    DigitRunOf(Decimal(a), s);
    DigitRunOf(Decimal(b), t);
    ValueOfDecimal(a);
    ValueOfDecimal(b);
    assert (Decimal(a) + s)[|Decimal(a)|..] == s;
    assert (Decimal(b) + t)[|Decimal(b)|..] == t;
  }

  // ----- concatenation -----------------------------------------------------

  lemma DropPrefix(a: string, b: string)
    ensures (a + b)[|a|..] == b && (a + b)[..|a|] == a
  {
  }

  lemma Assoc(a: string, b: string, c: string)
    ensures (a + b) + c == a + (b + c)
  {
  }

  // ----- provider ids ------------------------------------------------------

  const PROVIDER_PREFIX := "provider-"
  const MODEL_PROVIDER_PREFIX := "gpustack-model-"
  const ROUTE_PREFIX := "ai-route-route-"
  const MODEL_PREFIX := "model-"

  function ModelProviderId(modelId: nat): string { MODEL_PROVIDER_PREFIX + Decimal(modelId) }
  function LegacyRouteProviderId(routeId: nat): string { ROUTE_PREFIX + Decimal(routeId) }
  function ProviderRegistryName(id: nat): string { PROVIDER_PREFIX + Decimal(id) }

  /** Python's `s.startswith(p)`. */
  predicate StartsWith(s: string, p: string) { p <= s }

  predicate Collectable(id: string) {
    StartsWith(id, MODEL_PROVIDER_PREFIX) || StartsWith(id, ROUTE_PREFIX)
  }

  lemma ProviderIdKinds(modelId: nat, providerId: nat)
    ensures Collectable(ModelProviderId(modelId))
    ensures !StartsWith(ModelProviderId(modelId), PROVIDER_PREFIX)
    ensures StartsWith(ProviderRegistryName(providerId), PROVIDER_PREFIX)
    ensures !Collectable(ProviderRegistryName(providerId))
  {
    var m, p := ModelProviderId(modelId), ProviderRegistryName(providerId);
    assert m[0] == 'g' && p[0] == 'p';
    assert PROVIDER_PREFIX[0] == 'p' && ROUTE_PREFIX[0] == 'a' && MODEL_PROVIDER_PREFIX[0] == 'g';
  }

  // ----- ingress names -----------------------------------------------------

  function RouteIngressName(routeId: nat): string { ROUTE_PREFIX + Decimal(routeId) + ".internal" }

  /** The index of the last dot, or -1: where `rsplit('.', 1)` splits. */
  function LastDot(s: string): (d: int)
    ensures -1 <= d < |s|
  {
    if s == [] then -1
    else if s[|s| - 1] == '.' then |s| - 1
    else LastDot(s[..|s| - 1])
  }

  function FallbackIngressName(name: string): string { AtLastDot(name, ".fallback.", ".fallback") }

  /** `name` with its last dot replaced by `infix`, or `tail` appended to it. */
  function AtLastDot(name: string, infix: string, tail: string): string {
    var d := LastDot(name);
    if d < 0 then name + tail else Splice(name, d, infix)
  }

  /** `name` with the character at `d` replaced by `infix`. */
  function Splice(name: string, d: nat, infix: string): string
    requires d < |name|
  {
    name[..d] + infix + name[d + 1..]
  }

  lemma SpliceOfConcat(p: string, n: string, d: nat, infix: string)
    requires d < |n|
    ensures Splice(p + n, |p| + d, infix) == p + Splice(n, d, infix)
  {
    assert (p + n)[..|p| + d] == p + n[..d];
    assert (p + n)[|p| + d + 1..] == n[d + 1..];
  }

  datatype Namespaces = Namespaces(resource: string, gateway: string)

  function NamespacePrefix(ns: Namespaces): string {
    if ns.resource == ns.gateway then "" else ns.resource + "/"
  }

  function MainIngress(ns: Namespaces, routeId: nat): string {
    NamespacePrefix(ns) + RouteIngressName(routeId)
  }

  function FallbackIngress(ns: Namespaces, routeId: nat): string {
    NamespacePrefix(ns) + FallbackIngressName(RouteIngressName(routeId))
  }

  function RouteIngresses(ns: Namespaces, routeId: nat): set<string> {
    {MainIngress(ns, routeId), FallbackIngress(ns, routeId)}
  }

  lemma {:induction false} LastDotOfQualified(prefix: string, name: string)
    requires '.' in name
    ensures LastDot(name) >= 0 && LastDot(prefix + name) == |prefix| + LastDot(name)
  {
    var n := prefix + name;
    assert n[|n| - 1] == name[|name| - 1];
    if name[|name| - 1] != '.' {
      assert n[..|n| - 1] == prefix + name[..|name| - 1];
      LastDotOfQualified(prefix, name[..|name| - 1]);
    }
  }

  /** The fallback name computed before or after qualifying with a namespace is
      the same string, whatever the namespace is called. */
  lemma FallbackOfQualified(prefix: string, name: string)
    requires '.' in name
    ensures FallbackIngressName(prefix + name) == prefix + FallbackIngressName(name)
  {
    AtLastDotOfQualified(prefix, name, ".fallback.", ".fallback");
  }

  lemma AtLastDotOfQualified(prefix: string, name: string, infix: string, tail: string)
    requires '.' in name
    ensures AtLastDot(prefix + name, infix, tail) == prefix + AtLastDot(name, infix, tail)
  {
    LastDotOfQualified(prefix, name);
    SpliceOfConcat(prefix, name, LastDot(name), infix);
  }

  lemma {:induction false} LastDotFirst(t: string)
    requires '.' !in t
    ensures LastDot("." + t) == 0
  {
    var s := "." + t;
    if t != [] {
      assert s[|s| - 1] == t[|t| - 1];
      assert s[..|s| - 1] == "." + t[..|t| - 1];
      LastDotFirst(t[..|t| - 1]);
    }
  }

  lemma FallbackAtDot(head: string, t: string)
    requires '.' !in t
    ensures FallbackIngressName(head + ("." + t)) == head + (".fallback." + t)
  {
    var tail := "." + t;
    LastDotFirst(t);
    LastDotOfQualified(head, tail);
    SpliceOfConcat(head, tail, 0, ".fallback.");
    assert tail[..0] == "" && tail[1..] == t;
    assert Splice(tail, 0, ".fallback.") == ".fallback." + t;
  }

  lemma NoDotInInternal()
    ensures '.' !in "internal"
  {
    var t := "internal";
    assert forall i :: 0 <= i < |t| ==> t[i] != '.';
  }

  lemma FallbackSpelledOut(routeId: nat)
    ensures FallbackIngressName(RouteIngressName(routeId)) == ROUTE_PREFIX + (Decimal(routeId) + ".fallback.internal")
  {
    NoDotInInternal();
    FallbackAtDot(ROUTE_PREFIX + Decimal(routeId), "internal");
    assert "." + "internal" == ".internal" && ".fallback." + "internal" == ".fallback.internal";
    Assoc(ROUTE_PREFIX, Decimal(routeId), ".fallback.internal");
  }

  /** The route reconciler, the startup pruner and the model mapper spell the
      fallback ingress of a route alike: qualifying and deriving commute. */
  lemma FallbackSpellingsAgree(ns: Namespaces, routeId: nat)
    ensures FallbackIngressName(MainIngress(ns, routeId)) == FallbackIngress(ns, routeId)
  {
    var n := RouteIngressName(routeId);
    assert n[|n| - 9] == '.';
    FallbackOfQualified(NamespacePrefix(ns), n);
  }

  lemma NumberedNamesApart(p: string, a: nat, b: nat, s: string, t: string)
    requires StartsWithNonDigit(s) && StartsWithNonDigit(t)
    requires a != b || s != t
    ensures p + (Decimal(a) + s) != p + (Decimal(b) + t)
  {
    var x, y := p + (Decimal(a) + s), p + (Decimal(b) + t);
    if x == y {
      assert x[|p|..] == Decimal(a) + s && y[|p|..] == Decimal(b) + t;
      NumberThenRest(a, b, s, t);
      assert false;
    }
  }

  lemma IngressSpelledOut(ns: Namespaces, routeId: nat)
    ensures MainIngress(ns, routeId) == (NamespacePrefix(ns) + ROUTE_PREFIX) + (Decimal(routeId) + ".internal")
    ensures FallbackIngress(ns, routeId) ==
      (NamespacePrefix(ns) + ROUTE_PREFIX) + (Decimal(routeId) + ".fallback.internal")
  {
    FallbackSpelledOut(routeId);
  }

  /** No two of the ingress names of any routes coincide, except a name with
      itself. */
  lemma IngressNamesApart(ns: Namespaces, a: nat, b: nat)
    ensures MainIngress(ns, a) != FallbackIngress(ns, b)
    ensures a != b ==> RouteIngresses(ns, a) !! RouteIngresses(ns, b)
  {
    IngressSpelledOut(ns, a);
    IngressSpelledOut(ns, b);
    var p := NamespacePrefix(ns) + ROUTE_PREFIX;
    var m, f := ".internal", ".fallback.internal";
    NumberedNamesApart(p, a, b, m, f);
    if a != b {
      NumberedNamesApart(p, a, b, m, m);
      NumberedNamesApart(p, a, b, f, f);
      NumberedNamesApart(p, b, a, m, f);
    }
  }

  lemma NoSlash(routeId: nat, suffix: string)
    requires '/' !in suffix
    ensures '/' !in ROUTE_PREFIX + (Decimal(routeId) + suffix)
  {
    var p := ROUTE_PREFIX;
    assert forall i :: 0 <= i < |p| ==> p[i] != '/';
    assert forall i :: 0 <= i < |Decimal(routeId)| ==> IsDigit(Decimal(routeId)[i]);
  }

  lemma SplitQualified(ns: Namespaces, name: string)
    requires '/' !in ns.resource && '/' !in name
    ensures Split(NamespacePrefix(ns) + name, '/') == if ns.resource == ns.gateway then [name] else [ns.resource, name]
  {
    SplitOne(name, '/');
    if ns.resource == ns.gateway {
      assert NamespacePrefix(ns) + name == name;
    } else {
      SplitFirst(ns.resource, '/', name);
    }
  }

  lemma QualifiedApart(x: Namespaces, y: Namespaces, n: string, m: string)
    requires x.gateway == y.gateway && '/' !in x.resource && '/' !in y.resource && '/' !in n && '/' !in m
    requires x.resource != y.resource
    ensures NamespacePrefix(x) + n != NamespacePrefix(y) + m
  {
    SplitQualified(x, n);
    SplitQualified(y, m);
    var sx, sy := Split(NamespacePrefix(x) + n, '/'), Split(NamespacePrefix(y) + m, '/');
    assert |sx| != |sy| || sx[0] != sy[0];
  }

  /** Installations in different namespaces that share one gateway never name each
      other's ingresses, whether or not one of them lives in the gateway's own
      namespace, where names are not qualified. */
  lemma InstallationsApart(x: Namespaces, y: Namespaces, a: nat, b: nat)
    requires x.gateway == y.gateway && '/' !in x.resource && '/' !in y.resource
    requires x.resource != y.resource
    ensures RouteIngresses(x, a) !! RouteIngresses(y, b)
  {
    FallbackSpelledOut(a);
    FallbackSpelledOut(b);
    Assoc(ROUTE_PREFIX, Decimal(a), ".internal");
    Assoc(ROUTE_PREFIX, Decimal(b), ".internal");
    var m, f := ".internal", ".fallback.internal";
    assert forall i :: 0 <= i < |m| ==> m[i] != '/';
    assert forall i :: 0 <= i < |f| ==> f[i] != '/';
    NoSlash(a, m);
    NoSlash(a, f);
    NoSlash(b, m);
    NoSlash(b, f);
    var ma, mb := RouteIngressName(a), RouteIngressName(b);
    var fa, fb := FallbackIngressName(ma), FallbackIngressName(mb);
    QualifiedApart(x, y, ma, mb);
    QualifiedApart(x, y, ma, fb);
    QualifiedApart(x, y, fa, mb);
    QualifiedApart(x, y, fa, fb);
  }

  // ----- registry names ----------------------------------------------------

  function ModelPrefix(modelId: nat): string { MODEL_PREFIX + (Decimal(modelId) + "-") }

  function RegistryName(modelId: nat, instanceId: nat, suffix: Option<string>): string {
    var name := ModelPrefix(modelId) + Decimal(instanceId);
    match suffix
    case None => name
    case Some(x) => if x == "" then name else name + "-" + x
  }

  function ServiceName(registryName: string, kind: string): string { registryName + "." + kind }

  /** The part of a registry name after the instance id. */
  function Alias(suffix: Option<string>): string { if suffix.GetOr("") == "" then "" else "-" + suffix.GetOr("") }

  lemma RegistrySpelledOut(m: nat, i: nat, s: Option<string>)
    ensures RegistryName(m, i, s) == "model-" + (Decimal(m) + ("-" + (Decimal(i) + Alias(s))))
  {
    assert RegistryName(m, i, s) == ModelPrefix(m) + Decimal(i) + Alias(s);
  }

  /** A registry name says which model, which instance and which adapter it is for;
      an empty suffix is no suffix. */
  lemma RegistryNamesIff(m: nat, i: nat, s: Option<string>, n: nat, j: nat, t: Option<string>)
    ensures RegistryName(m, i, s) == RegistryName(n, j, t) <==> m == n && i == j && s.GetOr("") == t.GetOr("")
  {
    RegistrySpelledOut(m, i, s);
    RegistrySpelledOut(n, j, t);
    if RegistryName(m, i, s) == RegistryName(n, j, t) {
      var a, b := Decimal(i) + Alias(s), Decimal(j) + Alias(t);
      DropPrefix("model-", Decimal(m) + ("-" + a));
      DropPrefix("model-", Decimal(n) + ("-" + b));
      NumberThenRest(m, n, "-" + a, "-" + b);
      DropPrefix("-", a);
      DropPrefix("-", b);
      NumberThenRest(i, j, Alias(s), Alias(t));
      assert Alias(s) != "" ==> Alias(s)[1..] == s.GetOr("");
      assert Alias(t) != "" ==> Alias(t)[1..] == t.GetOr("");
    }
  }

  lemma PrefixedByModel(id: nat, name: string)
    requires StartsWith(name, ModelPrefix(id))
    ensures exists rest :: name == MODEL_PREFIX + (Decimal(id) + ("-" + rest))
  {
    var rest := name[|ModelPrefix(id)|..];
    assert name == ModelPrefix(id) + rest;
    Assoc(MODEL_PREFIX, Decimal(id) + "-", rest);
    Assoc(Decimal(id), "-", rest);
  }

  /** Names under the prefixes of two different models never coincide. */
  lemma ModelPrefixesApart(a: nat, b: nat, name: string)
    requires StartsWith(name, ModelPrefix(a)) && StartsWith(name, ModelPrefix(b))
    ensures a == b
  {
    PrefixedByModel(a, name);
    PrefixedByModel(b, name);
    var x :| name == MODEL_PREFIX + (Decimal(a) + ("-" + x));
    var y :| name == MODEL_PREFIX + (Decimal(b) + ("-" + y));
    DropPrefix(MODEL_PREFIX, Decimal(a) + ("-" + x));
    DropPrefix(MODEL_PREFIX, Decimal(b) + ("-" + y));
    NumberThenRest(a, b, "-" + x, "-" + y);
  }

  datatype Destination = Instance(id: nat) | MissingHeader | InvalidDestination

  function UpToDot(s: string): (r: string)
    ensures r <= s && '.' !in r
    ensures |r| < |s| ==> s[|r|] == '.'
  {
    if s == [] || s[0] == '.' then [] else [s[0]] + UpToDot(s[1..])
  }

  /** `(?:-[^.]+)?\..+`: an optional alias segment, then a dot and a type. */
  predicate MatchesTail(s: string) {
    if s != [] && s[0] == '-' then
      var alias := UpToDot(s[1..]);
      alias != [] && MatchesKind(s[1..][|alias|..])
    else MatchesKind(s)
  }

  predicate MatchesKind(s: string) { |s| >= 2 && s[0] == '.' && s[1] != '\n' }

  /** `(\d+)` and the tail: the captured number. */
  function ParseInstance(s: string): Option<nat> {
    var digits := DigitRun(s);
    if digits != [] && MatchesTail(s[|digits|..]) then Some(Value(digits)) else None
  }

  /** `\d+-` and what follows. */
  function ParseModel(s: string): Option<nat> {
    var digits := DigitRun(s);
    if digits != [] && "-" <= s[|digits|..] then ParseInstance(s[|digits| + 1..]) else None
  }

  /** What the pattern `^model-\d+-(\d+)(?:-[^.]+)?\..+` captures. None of its
      repetitions can give characters back: each is followed by a character it
      cannot match, so taking the longest run is the only way to match. */
  function ParseDestination(header: Option<string>): Destination {
    match header
    case None => MissingHeader
    case Some(s) =>
      if !StartsWith(s, MODEL_PREFIX) then InvalidDestination else
      match ParseModel(s[|MODEL_PREFIX|..])
      case None => InvalidDestination
      case Some(id) => Instance(id)
  }

  /** The strings the pattern describes: digits, digits, an alias that is empty
      or a dash and more, and a type. */
  ghost predicate TailShape(s: string, alias: string, kind: string) {
    && (alias == "" || (alias[0] == '-' && |alias| >= 2 && '.' !in alias))
    && kind != [] && kind[0] != '\n'
    && s == alias + ("." + kind)
  }

  ghost predicate DestinationShape(s: string, model: string, inst: string, alias: string, kind: string) {
    && AllDigits(model) && model != [] && AllDigits(inst) && inst != []
    && TailShape(alias + ("." + kind), alias, kind)
    && s == MODEL_PREFIX + (model + ("-" + (inst + (alias + ("." + kind)))))
  }

  lemma {:induction false} UpToDotOf(a: string, rest: string)
    requires '.' !in a && rest != [] && rest[0] == '.'
    ensures UpToDot(a + rest) == a
  {
    if a == [] {
      assert a + rest == rest;
    } else {
      assert (a + rest)[1..] == a[1..] + rest;
      UpToDotOf(a[1..], rest);
    }
  }

  lemma TailAccepted(s: string, alias: string, kind: string)
    requires TailShape(s, alias, kind)
    ensures MatchesTail(s) && StartsWithNonDigit(s)
  {
    var t := "." + kind;
    if alias == "" {
      assert s == t;
    } else {
      var a := alias[1..];
      assert s[1..] == a + t;
      UpToDotOf(a, t);
      assert (a + t)[|a|..] == t;
    }
  }

  lemma TailSound(s: string) returns (alias: string, kind: string)
    requires MatchesTail(s)
    ensures TailShape(s, alias, kind)
  {
    alias := if s[0] == '-' then "-" + UpToDot(s[1..]) else "";
    assert alias <= s;
    var t := s[|alias|..];
    assert s == alias + t;
    kind := t[1..];
    assert t == "." + kind;
  }

  lemma InstanceAccepted(inst: string, tail: string)
    requires AllDigits(inst) && inst != [] && MatchesTail(tail) && StartsWithNonDigit(tail)
    ensures ParseInstance(inst + tail) == Some(Value(inst))
  {
    DigitRunOf(inst, tail);
    DropPrefix(inst, tail);
  }

  lemma ModelAccepted(model: string, rest: string)
    requires AllDigits(model) && model != []
    ensures ParseModel(model + ("-" + rest)) == ParseInstance(rest)
  {
    DigitRunOf(model, "-" + rest);
    DropPrefix(model, "-" + rest);
    Assoc(model, "-", rest);
    DropPrefix(model + "-", rest);
  }

  /** Completeness: every string of the described shape is accepted, and what
      comes back is the number written in the instance position. */
  lemma ParseAccepts(s: string, model: string, inst: string, alias: string, kind: string)
    requires DestinationShape(s, model, inst, alias, kind)
    ensures ParseDestination(Some(s)) == Instance(Value(inst))
  {
    var t := alias + ("." + kind);
    TailAccepted(t, alias, kind);
    InstanceAccepted(inst, t);
    ModelAccepted(model, inst + t);
    DropPrefix(MODEL_PREFIX, model + ("-" + (inst + t)));
  }

  lemma InstanceSound(s: string) returns (inst: string, alias: string, kind: string)
    requires ParseInstance(s).Some?
    ensures AllDigits(inst) && inst != [] && TailShape(alias + ("." + kind), alias, kind)
    ensures s == inst + (alias + ("." + kind)) && ParseInstance(s) == Some(Value(inst))
  {
    inst := DigitRun(s);
    alias, kind := TailSound(s[|inst|..]);
    assert s == inst + s[|inst|..];
  }

  lemma ModelSound(s: string) returns (model: string, rest: string)
    requires ParseModel(s).Some?
    ensures AllDigits(model) && model != [] && s == model + ("-" + rest) && ParseModel(s) == ParseInstance(rest)
  {
    model := DigitRun(s);
    var dash := s[|model|..];
    rest := dash[1..];
    SplitAt(s, |model|);
    SplitAt(dash, 1);
    SliceOfSlice(s, |model|);
  }

  lemma SplitAt(s: string, n: nat)
    requires n <= |s|
    ensures s == s[..n] + s[n..]
  {
  }

  lemma SliceOfSlice(s: string, n: nat)
    requires n < |s|
    ensures s[n..][1..] == s[n + 1..] && s[n..][..1] == [s[n]]
  {
  }

  /** Soundness: whatever is accepted has the described shape. */
  lemma ParseSound(s: string) returns (model: string, inst: string, alias: string, kind: string)
    requires ParseDestination(Some(s)).Instance?
    ensures DestinationShape(s, model, inst, alias, kind)
    ensures ParseDestination(Some(s)) == Instance(Value(inst))
  {
    var r, rest := s[|MODEL_PREFIX|..], "";
    model, rest := ModelSound(r);
    inst, alias, kind := InstanceSound(rest);
    assert s == MODEL_PREFIX + r;
  }

  /** What comes of a header, exactly: an absent one is missing, one of the pattern's
      shape gives its instance, any other is invalid. */
  lemma ParseIff(header: Option<string>)
    ensures ParseDestination(header).MissingHeader? <==> header.None?
    ensures ParseDestination(header).Instance? <==>
      header.Some? && exists model, inst, alias, kind :: DestinationShape(header.value, model, inst, alias, kind)
  {
    if ParseDestination(header).Instance? {
      var model, inst, alias, kind := ParseSound(header.value);
    }
    if header.Some? {
      forall model, inst, alias, kind | DestinationShape(header.value, model, inst, alias, kind)
        ensures ParseDestination(header).Instance?
      {
        ParseAccepts(header.value, model, inst, alias, kind);
      }
    }
  }

  lemma SpelledOut(p: string, m: string, i: string, alias: string, kind: string)
    ensures ((p + (m + "-")) + i + alias) + "." + kind == p + (m + ("-" + (i + (alias + ("." + kind)))))
  {
  }

  /** Printing a registry name and parsing the service name gives back the
      instance id, with or without a LoRA suffix. */
  lemma RegistryNameRoundTrip(modelId: nat, instanceId: nat, suffix: Option<string>, kind: string)
    requires suffix.Some? ==> '.' !in suffix.value
    requires kind != [] && kind[0] != '\n'
    ensures ParseDestination(Some(ServiceName(RegistryName(modelId, instanceId, suffix), kind))) == Instance(instanceId)
  {
    var alias := if suffix.Some? && suffix.value != "" then "-" + suffix.value else "";
    var name := RegistryName(modelId, instanceId, suffix);
    assert name == ModelPrefix(modelId) + Decimal(instanceId) + alias;
    SpelledOut(MODEL_PREFIX, Decimal(modelId), Decimal(instanceId), alias, kind);
    ParseAccepts(ServiceName(name, kind), Decimal(modelId), Decimal(instanceId), alias, kind);
    ValueOfDecimal(instanceId);
  }
}
