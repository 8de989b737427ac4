/** Keeping a model route's Ingress at its expected form
    (gpustack/gateway/utils.py:843-928, 1003-1117). */
module ModelIngress {
  import opened Lists
  import opened Names

  type Annotations = map<string, string>

  datatype Metadata = Metadata(annotations: Option<Annotations>, rest: string)

  datatype Tls = Tls(hosts: Option<seq<string>>, secretName: Option<string>)

  datatype Path = Path(path: string, pathType: string, resource: string, service: Option<string>)

  datatype Rule = Rule(host: Option<string>, http: Option<Option<seq<Path>>>)

  datatype Spec = Spec(tls: Option<seq<Tls>>, rules: Option<seq<Rule>>, className: string)

  datatype Ingress = Ingress(metadata: Option<Metadata>, spec: Option<Spec>)

  const HIGRESS := "higress.io"
  const TLS_BOUNDS := {"higress.io/tls-min-protocol-version", "higress.io/tls-max-protocol-version"}

  predicate IsHigress(key: string) { StartsWith(key, HIGRESS) }

  lemma BoundsAreHigress(key: string)
    requires key in TLS_BOUNDS
    ensures IsHigress(key)
  {
    assert key[..|HIGRESS|] == HIGRESS;
  }

  function AnnotationsOf(m: Option<Metadata>): Annotations {
    match m
    case None => map[]
    case Some(md) => md.annotations.GetOr(map[])
  }

  function At(a: Annotations, key: string): Option<string> { if key in a then Some(a[key]) else None }

  // ----- the comparators ---------------------------------------------------

  /** The keys a comparison looks at: the expected higress ones, and both TLS
      bounds even where they are not expected. */
  function ComparedKeys(expected: Annotations): set<string> {
    (set k | k in expected && IsHigress(k)) + TLS_BOUNDS
  }

  predicate MetadataEqual(existing: Option<Metadata>, expected: Option<Metadata>) {
    forall k :: k in ComparedKeys(AnnotationsOf(expected)) ==> At(AnnotationsOf(existing), k) == At(AnnotationsOf(expected), k)
  }

  predicate TlsEqual(existing: Option<seq<Tls>>, expected: Option<seq<Tls>>) {
    if existing.None? || expected.None? then existing.None? && expected.None?
    else if existing.value == [] || expected.value == [] then true
    else existing.value == expected.value
  }

  predicate PathEqual(existing: Path, expected: Path) {
    existing.path == expected.path && existing.pathType == expected.pathType && existing.resource == expected.resource
  }

  predicate PathsEqual(existing: seq<Path>, expected: seq<Path>) {
    |existing| == |expected| && forall i :: 0 <= i < |existing| ==> PathEqual(existing[i], expected[i])
  }

  predicate RuleEqual(existing: Rule, expected: Rule) {
    && existing.host == expected.host && existing.http.Some? && expected.http.Some?
    && PathsEqual(existing.http.value.GetOr([]), expected.http.value.GetOr([]))
  }

  predicate RulesEqual(existing: seq<Rule>, expected: seq<Rule>) {
    |existing| == |expected| && forall i :: 0 <= i < |existing| ==> RuleEqual(existing[i], expected[i])
  }

  /** `mcp_ingress_equal`. */
  predicate IngressEqual(existing: Ingress, expected: Ingress) {
    && MetadataEqual(existing.metadata, expected.metadata)
    && existing.spec.Some? && expected.spec.Some?
    && TlsEqual(existing.spec.value.tls, expected.spec.value.tls)
    && RulesEqual(existing.spec.value.rules.GetOr([]), expected.spec.value.rules.GetOr([]))
  }

  /** What a request can match on: the hosts and paths, and the resource behind
      each path. */
  datatype Destination = Destination(path: string, pathType: string, resource: string)
  datatype Site = Site(host: Option<string>, destinations: seq<Destination>)

  function SiteOf(r: Rule): Site {
    var paths := if r.http.None? then [] else r.http.value.GetOr([]);
    Site(r.host, Map((p: Path) => Destination(p.path, p.pathType, p.resource), paths))
  }

  function Sites(i: Ingress): seq<Site>
    requires i.spec.Some?
  {
    Map((r: Rule) => SiteOf(r), i.spec.value.rules.GetOr([]))
  }

  lemma RuleEqualIff(existing: Rule, expected: Rule)
    requires existing.http.Some? && expected.http.Some?
    ensures RuleEqual(existing, expected) <==> SiteOf(existing) == SiteOf(expected)
  {
    var a, b := SiteOf(existing).destinations, SiteOf(expected).destinations;
    var ps, qs := existing.http.value.GetOr([]), expected.http.value.GetOr([]);
    if a == b {
      forall i | 0 <= i < |ps| ensures PathEqual(ps[i], qs[i]) {
        assert a[i] == b[i];
      }
    }
  }

  /** The comparator, exactly: two Ingresses whose rules all have paths are equal
      to it if and only if the compared annotations and the TLS lists are, and
      they send every host and path to the same resource. The class name and
      the service of a backend it does not see. */
  lemma IngressEqualIff(existing: Ingress, expected: Ingress)
    requires Comparable(existing) && Comparable(expected)
    ensures IngressEqual(existing, expected) <==>
      && MetadataEqual(existing.metadata, expected.metadata)
      && TlsEqual(existing.spec.value.tls, expected.spec.value.tls)
      && Sites(existing) == Sites(expected)
  {
    var a, b := existing.spec.value.rules.GetOr([]), expected.spec.value.rules.GetOr([]);
    var sa, sb := Sites(existing), Sites(expected);
    if |a| == |b| {
      forall i | 0 <= i < |a| ensures RuleEqual(a[i], b[i]) <==> sa[i] == sb[i] {
        RuleEqualIff(a[i], b[i]);
      }
      assert sa == sb <==> forall i :: 0 <= i < |a| ==> sa[i] == sb[i];
    } else {
      assert |sa| != |sb|;
    }
  }

  // ----- one pass ----------------------------------------------------------

  /** Expected higress annotations are set, unexpected ones deleted, all others
      left alone. */
  function Reannotated(existing: Annotations, expected: Annotations): Annotations {
    (map k | k in existing && !IsHigress(k) :: existing[k]) + (map k | k in expected && IsHigress(k) :: expected[k])
  }

  /** The rewrite. Metadata that is absent is replaced by a new object which is
      not attached, so it stays absent. */
  function Rewritten(existing: Ingress, expected: Ingress): Ingress {
    Ingress(if existing.metadata.None? then None
            else Some(existing.metadata.value.(annotations :=
                        Some(Reannotated(AnnotationsOf(existing.metadata), AnnotationsOf(expected.metadata))))),
            expected.spec)
  }

  function Pass(existing: Ingress, expected: Ingress): Ingress {
    if IngressEqual(existing, expected) then existing else Rewritten(existing, expected)
  }

  /** The expected Ingress can be met: it has a spec, and paths in every rule. */
  predicate Comparable(expected: Ingress) {
    expected.spec.Some? && forall i :: 0 <= i < |expected.spec.value.rules.GetOr([])| ==> expected.spec.value.rules.GetOr([])[i].http.Some?
  }

  predicate ExpectsHigress(expected: Ingress) {
    exists k :: k in AnnotationsOf(expected.metadata) && IsHigress(k)
  }

  lemma ReannotatedMatches(existing: Annotations, expected: Annotations, k: string)
    requires k in ComparedKeys(expected)
    ensures At(Reannotated(existing, expected), k) == At(expected, k)
  {
    if k in TLS_BOUNDS {
      BoundsAreHigress(k);
    }
  }

  /** One rewrite is enough, exactly when it can be: afterwards the comparator
      reports equal if and only if the expected Ingress can be met at all and
      the live object has metadata to carry the annotations (or needs none). */
  lemma RewriteConvergesIff(existing: Ingress, expected: Ingress)
    ensures IngressEqual(Rewritten(existing, expected), expected) <==>
      Comparable(expected) && (existing.metadata.Some? || !ExpectsHigress(expected))
  {
    var r := Rewritten(existing, expected);
    var want := AnnotationsOf(expected.metadata);
    if existing.metadata.Some? {
      forall k | k in ComparedKeys(want) ensures At(AnnotationsOf(r.metadata), k) == At(want, k) {
        ReannotatedMatches(AnnotationsOf(existing.metadata), want, k);
      }
    } else if k :| k in want && IsHigress(k) {
      assert k in ComparedKeys(want) && At(AnnotationsOf(r.metadata), k) != At(want, k);
    } else {
      forall k | k in ComparedKeys(want) ensures At(AnnotationsOf(r.metadata), k) == At(want, k) {
        if k in TLS_BOUNDS {
          BoundsAreHigress(k);
        }
      }
    }
  }

  /** After a rewrite the higress annotations are exactly the expected ones, so one
      added by hand is gone; all others are untouched. */
  lemma AnnotationsAfterRewrite(existing: Ingress, expected: Ingress, key: string)
    requires existing.metadata.Some?
    ensures var was, now, want := AnnotationsOf(existing.metadata), AnnotationsOf(Rewritten(existing, expected).metadata), AnnotationsOf(expected.metadata);
      if "higress.io" <= key then (key in now <==> key in want) && (key in now ==> now[key] == want[key])
      else (key in now <==> key in was) && (key in now ==> now[key] == was[key])
  {
  }

  /** After one pass, rewritten or not: a second pass changes nothing if the
      expected Ingress can be met; annotations of others are untouched; both TLS
      bounds are as expected, so one that is no longer expected is gone. */
  lemma PassIsEnough(existing: Ingress, expected: Ingress, key: string)
    requires existing.metadata.Some?
    ensures Comparable(expected) ==> Pass(Pass(existing, expected), expected) == Pass(existing, expected)
    ensures var before, after := AnnotationsOf(existing.metadata), AnnotationsOf(Pass(existing, expected).metadata);
      && (!IsHigress(key) ==> At(after, key) == At(before, key))
      && (key in TLS_BOUNDS || (key in AnnotationsOf(expected.metadata) && IsHigress(key)) ==>
            At(after, key) == At(AnnotationsOf(expected.metadata), key))
    ensures Pass(existing, expected).metadata.Some? && Pass(existing, expected).metadata.value.rest == existing.metadata.value.rest
  {
    var want := AnnotationsOf(expected.metadata);
    RewriteConvergesIff(existing, expected);
    if key in ComparedKeys(want) {
      ReannotatedMatches(AnnotationsOf(existing.metadata), want, key);
    }
  }

  /** Whatever stood there, after one pass every host and path goes where it is
      expected to go. */
  lemma PassRestoresSites(existing: Ingress, expected: Ingress)
    requires Comparable(expected)
    ensures Comparable(Pass(existing, expected)) && Sites(Pass(existing, expected)) == Sites(expected)
  {
    if IngressEqual(existing, expected) {
      var a, b := existing.spec.value.rules.GetOr([]), expected.spec.value.rules.GetOr([]);
      forall i | 0 <= i < |a| ensures a[i].http.Some? {
        assert RuleEqual(a[i], b[i]);
      }
      IngressEqualIff(existing, expected);
    }
  }

  /** When a pass leaves the spec as expected, exactly: it was so already, or there
      is a difference the comparator sees, for then the whole spec is replaced,
      class name, TLS list and backend services included. A difference in the
      class name or in a backend's service alone stays. */
  lemma SpecAfterPassIff(existing: Ingress, expected: Ingress)
    ensures Pass(existing, expected).spec == expected.spec <==>
      || existing.spec == expected.spec
      || !Comparable(existing) || !Comparable(expected)
      || !MetadataEqual(existing.metadata, expected.metadata)
      || !TlsEqual(existing.spec.value.tls, expected.spec.value.tls)
      || Sites(existing) != Sites(expected)
  {
    if Comparable(existing) && Comparable(expected) {
      IngressEqualIff(existing, expected);
    }
  }

  /** When a pass leaves the TLS list as expected, exactly: the lists were equal,
      or neither was empty, or one was absent, or something else differs that
      the comparator sees. An empty list and another one compare equal, so the
      old one stays until something else makes the pass rewrite. */
  lemma TlsAfterPassIff(existing: Ingress, expected: Ingress)
    requires Comparable(existing) && Comparable(expected)
    ensures var old_, new_ := existing.spec.value.tls, expected.spec.value.tls;
      Pass(existing, expected).spec.value.tls == new_ <==>
        || old_ == new_ || old_.None? || new_.None? || (old_.value != [] && new_.value != [])
        || !MetadataEqual(existing.metadata, expected.metadata) || Sites(existing) != Sites(expected)
  {
    IngressEqualIff(existing, expected);
  }

  /** An Ingress that differs from the live one in its class name only, as after a
      change of the configured gateway class: no pass ever moves it. With a new
      path beside it, the next pass does. */
  lemma ClassChangeIsMissed(existing: Ingress, class_: string, path: Path)
    requires Comparable(existing) && class_ != existing.spec.value.className
    ensures Pass(existing, WithClass(existing, class_)) == existing
    ensures var more := WithPath(WithClass(existing, class_), path); Pass(existing, more).spec == more.spec
  {
    var renamed := WithClass(existing, class_);
    IngressEqualIff(existing, renamed);
    var more := WithPath(renamed, path);
    assert |Sites(more)| == |Sites(existing)| + 1;
    SpecAfterPassIff(existing, more);
  }

  function WithClass(i: Ingress, class_: string): Ingress
    requires i.spec.Some?
  {
    i.(spec := Some(i.spec.value.(className := class_)))
  }

  /** One more rule, without a host, for one path. */
  function WithPath(i: Ingress, path: Path): Ingress
    requires i.spec.Some?
  {
    i.(spec := Some(i.spec.value.(rules := Some(i.spec.value.rules.GetOr([]) + [Rule(None, Some(Some([path])))]))))
  }

  // ----- the live object ---------------------------------------------------

  /** The annotation loops: expected higress keys are written one by one, then
      every other higress key is deleted. */
  method Reannotate(existing: Annotations, want: Annotations) returns (annotations: Annotations)
    ensures annotations == Reannotated(existing, want)
  {
    annotations := existing;
    var todo, expectedKeys := want.Keys, {};
    while todo != {}
      invariant todo <= want.Keys
      invariant forall k :: k in expectedKeys <==> k in want && k !in todo && IsHigress(k)
      invariant forall k :: At(annotations, k) == if k in expectedKeys then Some(want[k]) else At(existing, k)
      decreases todo
    {
      var k :| k in todo;
      todo := todo - {k};
      if IsHigress(k) {
        annotations := annotations[k := want[k]];
        expectedKeys := expectedKeys + {k};
      }
    }
    ghost var written := annotations;
    annotations := annotations - (set k | k in annotations && IsHigress(k) && k !in expectedKeys);
    forall k ensures At(annotations, k) == At(Reannotated(existing, want), k) {
      assert At(written, k) == if k in expectedKeys then Some(want[k]) else At(existing, k);
    }
    SameAt(annotations, Reannotated(existing, want));
  }

  lemma SameAt(a: Annotations, b: Annotations)
    requires forall k :: At(a, k) == At(b, k)
    ensures a == b
  {
    forall k ensures k in a <==> k in b {
      assert At(a, k) == At(b, k);
    }
    forall k | k in a ensures a[k] == b[k] {
      assert At(a, k) == At(b, k);
    }
  }

  class LiveIngress {
    var metadata: Option<Metadata>
    var spec: Option<Spec>
    var writes: nat

    constructor (ingress: Ingress)
      ensures View() == ingress && writes == 0
    {
      metadata, spec, writes := ingress.metadata, ingress.spec, 0;
    }

    ghost function View(): Ingress
      reads this
    {
      Ingress(metadata, spec)
    }

    /** The update half of `ensure_model_ingress`. */
    method Ensure(expected: Ingress)
      modifies this
      ensures View() == Pass(old(View()), expected)
      ensures writes == old(writes) + if IngressEqual(old(View()), expected) then 0 else 1
    {
      if IngressEqual(Ingress(metadata, spec), expected) {
        return;
      }
      spec := expected.spec;
      var want := AnnotationsOf(expected.metadata);
      var annotations := Reannotate(AnnotationsOf(metadata), want);
      if metadata.Some? {
        metadata := Some(metadata.value.(annotations := Some(annotations)));
      }
      writes := writes + 1;
    }
  }
}
