/** Diffing the registries of the shared McpBridge resource
    (gpustack/gateway/utils.py:541-580, 627-690, 1239-1277). */
module Registries {
  import opened Lists
  import opened StableSort
  import opened Names
  import opened Arithmetic
  import Traces

  /** A registry entry; everything but the name is in `body`. */
  datatype Registry = Registry(name: Option<string>, body: string)

  /** What one caller wants: its entries, and which others to delete. */
  datatype Request = Request(desired: seq<Registry>, deletePrefix: Option<string>, deleteNames: set<string>)

  function ByName(): Registry -> Key { (r: Registry) => [r.name.GetOr("")] }

  function Named(n: string): Registry -> bool { (r: Registry) => r.name == Some(n) }

  /** The keys of the dictionary of desired entries, in insertion order. */
  function NamesOf(desired: seq<Registry>): seq<string> {
    if desired == [] then [] else
    var last, before := desired[|desired| - 1].name, NamesOf(desired[..|desired| - 1]);
    if last.None? || last.value in before then before else before + [last.value]
  }

  /** The entry the dictionary holds for a name: the last one desired. */
  function LastOf(desired: seq<Registry>, n: string): (r: Registry)
    requires n in NamesOf(desired)
    ensures r in desired && r.name == Some(n)
  {
    if desired[|desired| - 1].name == Some(n) then desired[|desired| - 1] else LastOf(desired[..|desired| - 1], n)
  }

  predicate Deletes(q: Request, n: string) {
    (q.deletePrefix.Some? && StartsWith(n, q.deletePrefix.value)) || n in q.deleteNames
  }

  function Without(pending: seq<string>, n: string): seq<string> { Filter((m: string) => m != n, pending) }

  datatype Walked = Walked(kept: seq<Registry>, changed: bool, left: seq<string>)

  ghost predicate Pending(q: Request, pending: seq<string>) {
    && (forall n :: n in pending ==> n in NamesOf(q.desired))
    && (forall i, j :: 0 <= i < j < |pending| ==> pending[i] != pending[j])
  }

  lemma WithoutPending(q: Request, pending: seq<string>, n: string)
    requires Pending(q, pending)
    ensures Pending(q, Without(pending, n))
    ensures forall m :: m in Without(pending, n) <==> m in pending && m != n
    decreases |pending|
  {
    FilterMembers((m: string) => m != n, pending);
    DistinctFilter((m: string) => m != n, pending);
  }

  lemma {:induction false} DistinctFilter(f: string -> bool, s: seq<string>)
    requires forall i, j :: 0 <= i < j < |s| ==> s[i] != s[j]
    ensures forall i, j :: 0 <= i < j < |Filter(f, s)| ==> Filter(f, s)[i] != Filter(f, s)[j]
  {
    if s != [] {
      DistinctFilter(f, s[1..]);
      FilterMember(f, s[1..], s[0]);
    }
  }

  /** The loop over the existing entries; `pending` is what is left of the
      dictionary of desired entries. */
  function Walk(q: Request, existing: seq<Registry>, pending: seq<string>): (w: Walked)
    requires Pending(q, pending)
    ensures Pending(q, w.left)
  {
    if existing == [] then Walked([], false, pending) else
    var r := existing[0];
    if r.name.Some? && r.name.value in pending then
      WithoutPending(q, pending, r.name.value);
      var w := Walk(q, existing[1..], Without(pending, r.name.value));
      var wanted := LastOf(q.desired, r.name.value);
      Walked([wanted] + w.kept, r != wanted || w.changed, w.left)
    else
      var w := Walk(q, existing[1..], pending);
      if r.name.Some? && Deletes(q, r.name.value) then w.(changed := true)
      else w.(kept := [r] + w.kept)
  }

  function Wanted(q: Request, names: seq<string>): seq<Registry>
    requires forall n :: n in names ==> n in NamesOf(q.desired)
  {
    if names == [] then [] else [LastOf(q.desired, names[0])] + Wanted(q, names[1..])
  }

  lemma {:induction false} NamesDistinct(desired: seq<Registry>)
    ensures forall i, j :: 0 <= i < j < |NamesOf(desired)| ==> NamesOf(desired)[i] != NamesOf(desired)[j]
  {
    if desired != [] {
      NamesDistinct(desired[..|desired| - 1]);
    }
  }

  function Total(q: Request, existing: seq<Registry>): (t: (bool, seq<Registry>)) {
    NamesDistinct(q.desired);
    var w := Walk(q, existing, NamesOf(q.desired));
    (w.changed || w.left != [], w.kept + Wanted(q, w.left))
  }

  /** `diff_registries`: whether an update is needed, and the sorted entries. */
  function Diff(q: Request, existing: seq<Registry>): (bool, seq<Registry>) {
    var (need, total) := Total(q, existing);
    (need, Sort(ByName(), total))
  }

  // ----- what happens to the entries of one name ---------------------------

  /** The last desired entry replaces the first existing one, or is added; the
      remaining existing ones stay unless they are to be deleted. */
  function Effect(q: Request, pending: seq<string>, n: string, es: seq<Registry>): seq<Registry>
    requires forall m :: m in pending ==> m in NamesOf(q.desired)
  {
    if n in pending then [LastOf(q.desired, n)] + (if es == [] || Deletes(q, n) then [] else es[1..])
    else if Deletes(q, n) then []
    else es
  }

  lemma {:induction false} WantedOfName(q: Request, names: seq<string>, n: string)
    requires Pending(q, names)
    ensures Filter(Named(n), Wanted(q, names)) == if n in names then [LastOf(q.desired, n)] else []
  {
    if names != [] {
      WantedOfName(q, names[1..], n);
      assert names == [names[0]] + names[1..];
      assert Wanted(q, names)[1..] == Wanted(q, names[1..]);
    }
  }

  function IfLeft(q: Request, left: seq<string>, n: string): seq<Registry>
    requires forall m :: m in left ==> m in NamesOf(q.desired)
  {
    if n in left then [LastOf(q.desired, n)] else []
  }

  lemma {:induction false} WalkOfName(q: Request, existing: seq<Registry>, pending: seq<string>, n: string)
    requires Pending(q, pending)
    ensures var w := Walk(q, existing, pending);
      Filter(Named(n), w.kept) + IfLeft(q, w.left, n) == Effect(q, pending, n, Filter(Named(n), existing))
  {
    var w := Walk(q, existing, pending);
    if existing == [] {
    } else if existing[0].name.Some? && existing[0].name.value in pending {
      var m := existing[0].name.value;
      WithoutPending(q, pending, m);
      var v := Walk(q, existing[1..], Without(pending, m));
      WalkOfName(q, existing[1..], Without(pending, m), n);
      assert w.kept[1..] == v.kept;
      if m == n {
        assert Filter(Named(n), existing)[1..] == Filter(Named(n), existing[1..]);
        assert Filter(Named(n), w.kept) == [w.kept[0]] + Filter(Named(n), v.kept);
      }
    } else {
      WalkOfName(q, existing[1..], pending, n);
      if !(existing[0].name.Some? && Deletes(q, existing[0].name.value)) {
        assert w.kept[1..] == Walk(q, existing[1..], pending).kept;
      }
    }
  }

  lemma TotalOfName(q: Request, existing: seq<Registry>, n: string)
    ensures Filter(Named(n), Total(q, existing).1) == Effect(q, NamesOf(q.desired), n, Filter(Named(n), existing))
  {
    NamesDistinct(q.desired);
    var w := Walk(q, existing, NamesOf(q.desired));
    WalkOfName(q, existing, NamesOf(q.desired), n);
    FilterConcat(Named(n), w.kept, Wanted(q, w.left));
    WantedOfName(q, w.left, n);
  }

  /** The diff, name by name: this says what the result holds without walking
      the list, for every list of existing entries, repeated names included. */
  lemma DiffOfName(q: Request, existing: seq<Registry>, n: string)
    ensures Filter(Named(n), Diff(q, existing).1) == Effect(q, NamesOf(q.desired), n, Filter(Named(n), existing))
  {
    var total := Total(q, existing).1;
    TotalOfName(q, existing, n);
    FilterSort(Named(n), ByName(), total);
    forall r | r in Filter(Named(n), total) ensures ByName()(r) == [n] {
      FilterMember(Named(n), total, r);
    }
    SortSameKey(ByName(), [n], Filter(Named(n), total));
  }

  /** An entry that has no name, or whose name is neither desired nor deleted. */
  ghost predicate Unrelated(q: Request, r: Registry) {
    r.name.None? || (r.name.value !in NamesOf(q.desired) && !Deletes(q, r.name.value))
  }

  lemma {:induction false} WantedNone(q: Request, names: seq<string>, f: Registry -> bool)
    requires Pending(q, names) && forall r :: f(r) ==> Unrelated(q, r)
    ensures Filter(f, Wanted(q, names)) == []
  {
    if names != [] {
      WantedNone(q, names[1..], f);
      assert Wanted(q, names)[1..] == Wanted(q, names[1..]);
    }
  }

  lemma {:induction false} WalkUnrelated(q: Request, existing: seq<Registry>, pending: seq<string>, f: Registry -> bool)
    requires Pending(q, pending) && forall r :: f(r) ==> Unrelated(q, r)
    ensures Filter(f, Walk(q, existing, pending).kept) == Filter(f, existing)
  {
    if existing != [] {
      var w := Walk(q, existing, pending);
      if existing[0].name.Some? && existing[0].name.value in pending {
        var rest := Without(pending, existing[0].name.value);
        WithoutPending(q, pending, existing[0].name.value);
        WalkUnrelated(q, existing[1..], rest, f);
        assert w.kept[1..] == Walk(q, existing[1..], rest).kept;
      } else {
        WalkUnrelated(q, existing[1..], pending, f);
        if !(existing[0].name.Some? && Deletes(q, existing[0].name.value)) {
          assert w.kept[1..] == Walk(q, existing[1..], pending).kept;
        }
      }
    }
  }

  lemma TotalUnrelated(q: Request, existing: seq<Registry>, f: Registry -> bool)
    requires forall r :: f(r) ==> Unrelated(q, r)
    ensures Filter(f, Total(q, existing).1) == Filter(f, existing)
  {
    NamesDistinct(q.desired);
    var w := Walk(q, existing, NamesOf(q.desired));
    WalkUnrelated(q, existing, NamesOf(q.desired), f);
    WantedNone(q, w.left, f);
    FilterConcat(f, w.kept, Wanted(q, w.left));
  }

  /** Unrelated entries all stay, unaltered; entries with equal names keep their
      order. */
  lemma DiffKeepsUnrelated(q: Request, existing: seq<Registry>, f: Registry -> bool)
    requires forall r :: f(r) ==> Unrelated(q, r)
    ensures Filter(f, Diff(q, existing).1) == Sort(ByName(), Filter(f, existing))
  {
    TotalUnrelated(q, existing, f);
    FilterSort(f, ByName(), Total(q, existing).1);
  }

  // ----- the flag ----------------------------------------------------------

  lemma {:induction false} QuietWalk(q: Request, existing: seq<Registry>, pending: seq<string>)
    requires Pending(q, pending) && !Walk(q, existing, pending).changed
    ensures Walk(q, existing, pending).kept == existing
  {
    if existing != [] {
      if existing[0].name.Some? && existing[0].name.value in pending {
        WithoutPending(q, pending, existing[0].name.value);
        QuietWalk(q, existing[1..], Without(pending, existing[0].name.value));
      } else {
        QuietWalk(q, existing[1..], pending);
      }
    }
  }

  lemma {:induction false} ChangedName(q: Request, existing: seq<Registry>, pending: seq<string>) returns (n: string)
    requires Pending(q, pending)
    requires Walk(q, existing, pending).changed || Walk(q, existing, pending).left != []
    ensures Effect(q, pending, n, Filter(Named(n), existing)) != Filter(Named(n), existing)
  {
    if existing == [] {
      n := pending[0];
      assert n in pending;
    } else {
      var r := existing[0];
      if r.name.Some? && r.name.value in pending {
        n := r.name.value;
        assert Filter(Named(n), existing) == [r] + Filter(Named(n), existing[1..]);
        if r == LastOf(q.desired, n) {
          WithoutPending(q, pending, n);
          var m := ChangedName(q, existing[1..], Without(pending, n));
          n := m;
        }
      } else if r.name.Some? && Deletes(q, r.name.value) {
        n := r.name.value;
        assert Filter(Named(n), existing)[0] == r;
      } else {
        n := ChangedName(q, existing[1..], pending);
      }
    }
  }

  lemma EffectCounts(q: Request, n: string, es: seq<Registry>)
    requires multiset(Effect(q, NamesOf(q.desired), n, es)) == multiset(es)
    ensures Effect(q, NamesOf(q.desired), n, es) == es
  {
    var e := Effect(q, NamesOf(q.desired), n, es);
    assert |e| == |multiset(e)| == |multiset(es)| == |es|;
    if n in NamesOf(q.desired) {
      assert es == [es[0]] + es[1..];
      assert e[1..] == es[1..];
      var last := LastOf(q.desired, n);
      assert multiset(e) == multiset{last} + multiset(es[1..]);
      assert multiset(es) == multiset{es[0]} + multiset(es[1..]);
      assert (multiset{last} + multiset(es[1..]))[last] == (multiset{es[0]} + multiset(es[1..]))[last];
      assert last == es[0];
    }
  }

  lemma QuietTotal(q: Request, existing: seq<Registry>)
    requires !Total(q, existing).0
    ensures Total(q, existing).1 == existing
  {
    NamesDistinct(q.desired);
    var w := Walk(q, existing, NamesOf(q.desired));
    QuietWalk(q, existing, NamesOf(q.desired));
    assert w.kept + Wanted(q, w.left) == existing;
  }

  lemma NeededTotal(q: Request, existing: seq<Registry>)
    requires Total(q, existing).0
    ensures multiset(Total(q, existing).1) != multiset(existing)
  {
    NamesDistinct(q.desired);
    var total := Total(q, existing).1;
    var n := ChangedName(q, existing, NamesOf(q.desired));
    TotalOfName(q, existing, n);
    if multiset(total) == multiset(existing) {
      forall r ensures multiset(Filter(Named(n), total))[r] == multiset(Filter(Named(n), existing))[r] {
        FilterCount(Named(n), total, r);
        FilterCount(Named(n), existing, r);
      }
      EffectCounts(q, n, Filter(Named(n), existing));
      assert false;
    }
  }

  /** An update is asked for if and only if the entries change. */
  lemma NeedUpdateIff(q: Request, existing: seq<Registry>)
    ensures Diff(q, existing).0 <==> multiset(Diff(q, existing).1) != multiset(existing)
    ensures !Diff(q, existing).0 ==> Diff(q, existing).1 == Sort(ByName(), existing)
  {
    SortCount(ByName(), Total(q, existing).1);
    if Total(q, existing).0 {
      NeededTotal(q, existing);
    } else {
      QuietTotal(q, existing);
    }
  }

  /** A second diff of the same request asks for nothing and returns the same
      list. */
  lemma DiffIdempotent(q: Request, existing: seq<Registry>)
    ensures Diff(q, Diff(q, existing).1) == (false, Diff(q, existing).1)
  {
    NamesDistinct(q.desired);
    var once := Diff(q, existing).1;
    if Diff(q, once).0 {
      var n := ChangedName(q, once, NamesOf(q.desired));
      DiffOfName(q, existing, n);
      assert false;
    }
    NeedUpdateIff(q, once);
    SortSorted(ByName(), Total(q, existing).1);
    SortOfSorted(ByName(), once);
  }

  // ----- requests of different owners --------------------------------------

  ghost predicate Concerns(q: Request, n: string) { n in NamesOf(q.desired) || Deletes(q, n) }

  /** No name concerns both, and neither is about the empty name. */
  ghost predicate Apart(a: Request, b: Request) {
    (forall n :: !(Concerns(a, n) && Concerns(b, n))) && !Concerns(a, "") && !Concerns(b, "")
  }

  /** The resource after one request: rewritten only if an update is needed. */
  function Apply(regs: seq<Registry>, q: Request): seq<Registry> {
    var (need, result) := Diff(q, regs);
    if need then result else regs
  }

  lemma DiffOfKey(q: Request, regs: seq<Registry>, k: Key)
    requires !Concerns(q, "")
    ensures Filter(HasKey(ByName(), k), Diff(q, regs).1) ==
      if k == [] || |k| != 1 then [] else if k == [""] then Filter(HasKey(ByName(), k), regs)
      else Effect(q, NamesOf(q.desired), k[0], Filter(HasKey(ByName(), k), regs))
  {
    var f := HasKey(ByName(), k);
    if |k| != 1 {
      FilterNone(f, Diff(q, regs).1);
    } else if k == [""] {
      DiffKeepsUnrelated(q, regs, f);
      forall r | r in Filter(f, regs) ensures ByName()(r) == k {
        FilterMember(f, regs, r);
      }
      SortSameKey(ByName(), k, Filter(f, regs));
    } else {
      FilterAgree(f, Named(k[0]), regs);
      FilterAgree(f, Named(k[0]), Diff(q, regs).1);
      DiffOfName(q, regs, k[0]);
    }
  }

  lemma DiffsCommute(a: Request, b: Request, regs: seq<Registry>)
    requires Apart(a, b)
    ensures Diff(b, Diff(a, regs).1).1 == Diff(a, Diff(b, regs).1).1
  {
    var ra, rb := Diff(a, regs).1, Diff(b, regs).1;
    var ab, ba := Diff(b, ra).1, Diff(a, rb).1;
    SortSorted(ByName(), Total(b, ra).1);
    SortSorted(ByName(), Total(a, rb).1);
    forall k ensures Filter(HasKey(ByName(), k), ab) == Filter(HasKey(ByName(), k), ba) {
      DiffOfKey(a, regs, k);
      DiffOfKey(b, regs, k);
      DiffOfKey(b, ra, k);
      DiffOfKey(a, rb, k);
      if |k| == 1 {
        assert !(Concerns(a, k[0]) && Concerns(b, k[0]));
      }
    }
    SortedUnique(ByName(), ab, ba);
  }

  /** What a request needs does not depend on requests it has nothing to do
      with. */
  lemma NeedUnaffected(a: Request, b: Request, regs: seq<Registry>)
    requires Apart(a, b)
    ensures Diff(b, Diff(a, regs).1).0 == Diff(b, regs).0
  {
    NamesDistinct(b.desired);
    var ra := Diff(a, regs).1;
    forall n | Concerns(b, n) ensures Filter(Named(n), ra) == Filter(Named(n), regs) {
      DiffOfName(a, regs, n);
    }
    NeedByName(b, regs);
    NeedByName(b, ra);
    if Diff(b, ra).0 {
      var n := ChangedName(b, ra, NamesOf(b.desired));
      assert Concerns(b, n);
      assert Changes(b, regs, n);
    }
    if Diff(b, regs).0 {
      var n := ChangedName(b, regs, NamesOf(b.desired));
      assert Concerns(b, n);
      assert Changes(b, ra, n);
    }
  }

  /** An update that changes no entry leaves the list alone, order included; any
      other leaves it sorted by name. */
  lemma ApplyLeaves(q: Request, regs: seq<Registry>)
    ensures multiset(Apply(regs, q)) == multiset(regs) ==> Apply(regs, q) == regs
    ensures multiset(Apply(regs, q)) != multiset(regs) ==>
      forall i, j :: 0 <= i < j < |Apply(regs, q)| ==>
        StringLeq(Apply(regs, q)[i].name.GetOr(""), Apply(regs, q)[j].name.GetOr(""))
  {
    NeedUpdateIff(q, regs);
    var out := Apply(regs, q);
    if Diff(q, regs).0 {
      SortSorted(ByName(), Total(q, regs).1);
      forall i, j | 0 <= i < j < |out| ensures StringLeq(out[i].name.GetOr(""), out[j].name.GetOr("")) {
        assert KeyLeq(ByName()(out[i]), ByName()(out[j]));
        StringTotal(out[i].name.GetOr(""), out[j].name.GetOr(""));
      }
    }
  }

  ghost predicate Changes(q: Request, regs: seq<Registry>, n: string) {
    Effect(q, NamesOf(q.desired), n, Filter(Named(n), regs)) != Filter(Named(n), regs)
  }

  lemma NeedByName(q: Request, regs: seq<Registry>)
    ensures forall n :: Changes(q, regs, n) ==> Diff(q, regs).0
  {
    forall n | Changes(q, regs, n) ensures Diff(q, regs).0 {
      TotalOfName(q, regs, n);
      if !Total(q, regs).0 {
        QuietTotal(q, regs);
        assert false;
      }
    }
  }

  /** Requests that have nothing to do with each other commute on the resource,
      writes skipped for lack of change included. */
  lemma ApplyCommutes(a: Request, b: Request, regs: seq<Registry>)
    requires Apart(a, b)
    ensures Apply(Apply(regs, a), b) == Apply(Apply(regs, b), a)
  {
    assert Apart(b, a);
    DiffsCommute(a, b, regs);
    NeedUnaffected(a, b, regs);
    NeedUnaffected(b, a, regs);
  }

  // ----- the requests of the model controller ------------------------------

  /** A model instance; `address` is absent when it cannot be reached yet. */
  datatype InstanceEntry = InstanceEntry(id: nat, address: Option<string>)

  datatype ModelSync = ModelSync(modelId: nat, deleted: bool, instances: seq<InstanceEntry>, loraSuffixes: seq<string>)

  function InstanceRegistries(modelId: nat, inst: InstanceEntry, suffixes: seq<Option<string>>): seq<Registry> {
    if suffixes == [] || inst.address.None? then []
    else [Registry(Some(RegistryName(modelId, inst.id, suffixes[0])), inst.address.value)]
           + InstanceRegistries(modelId, inst, suffixes[1..])
  }

  function ModelRegistries(modelId: nat, insts: seq<InstanceEntry>, suffixes: seq<Option<string>>): seq<Registry> {
    if insts == [] then []
    else InstanceRegistries(modelId, insts[0], suffixes) + ModelRegistries(modelId, insts[1..], suffixes)
  }

  function RequestOf(m: ModelSync): Request {
    var suffixes := [None] + Map((s: string) => Some(s), m.loraSuffixes);
    Request(if m.deleted then [] else ModelRegistries(m.modelId, m.instances, suffixes), Some(ModelPrefix(m.modelId)), {})
  }

  ghost predicate OwnName(modelId: nat, r: Registry) {
    r.name.Some? && StartsWith(r.name.value, ModelPrefix(modelId))
  }

  lemma {:induction false} InstanceNames(modelId: nat, inst: InstanceEntry, suffixes: seq<Option<string>>)
    ensures forall r :: r in InstanceRegistries(modelId, inst, suffixes) ==> OwnName(modelId, r)
  {
    if suffixes != [] {
      InstanceNames(modelId, inst, suffixes[1..]);
      var name := RegistryName(modelId, inst.id, suffixes[0]);
      assert name[..|ModelPrefix(modelId)|] == ModelPrefix(modelId);
    }
  }

  lemma {:induction false} ModelNames(modelId: nat, insts: seq<InstanceEntry>, suffixes: seq<Option<string>>)
    ensures forall r :: r in ModelRegistries(modelId, insts, suffixes) ==> OwnName(modelId, r)
  {
    if insts != [] {
      InstanceNames(modelId, insts[0], suffixes);
      ModelNames(modelId, insts[1..], suffixes);
    }
  }

  lemma {:induction false} NamesOfMember(desired: seq<Registry>, n: string)
    ensures n in NamesOf(desired) <==> exists r :: r in desired && r.name == Some(n)
  {
    if desired != [] {
      var init, last := desired[..|desired| - 1], desired[|desired| - 1];
      NamesOfMember(init, n);
      assert desired == init + [last];
      assert last in desired;
      if r :| r in desired && r.name == Some(n) {
        assert r in init || r == last;
      }
    }
  }

  /** A model's request concerns exactly the names under its own prefix. */
  lemma ModelConcerns(m: ModelSync, n: string)
    ensures Concerns(RequestOf(m), n) <==> StartsWith(n, ModelPrefix(m.modelId))
  {
    var q := RequestOf(m);
    NamesOfMember(q.desired, n);
    ModelNames(m.modelId, m.instances, [None] + Map((s: string) => Some(s), m.loraSuffixes));
  }

  lemma ModelsApart(a: ModelSync, b: ModelSync)
    requires a.modelId != b.modelId
    ensures Apart(RequestOf(a), RequestOf(b))
  {
    forall n ensures !(Concerns(RequestOf(a), n) && Concerns(RequestOf(b), n)) {
      ModelConcerns(a, n);
      ModelConcerns(b, n);
      if StartsWith(n, ModelPrefix(a.modelId)) && StartsWith(n, ModelPrefix(b.modelId)) {
        ModelPrefixesApart(a.modelId, b.modelId, n);
      }
    }
    ModelConcerns(a, "");
    ModelConcerns(b, "");
  }

  /** One model's reconcile never touches another model's entries. */
  lemma ModelLeavesOthersAlone(m: ModelSync, other: nat, n: string, regs: seq<Registry>)
    requires m.modelId != other && StartsWith(n, ModelPrefix(other))
    ensures Filter(Named(n), Apply(regs, RequestOf(m))) == Filter(Named(n), regs)
  {
    if StartsWith(n, ModelPrefix(m.modelId)) {
      ModelPrefixesApart(m.modelId, other, n);
    }
    ModelConcerns(m, n);
    DiffOfName(RequestOf(m), regs, n);
  }

  lemma {:induction false} InstanceRegistriesMember(modelId: nat, inst: InstanceEntry, suffixes: seq<Option<string>>, r: Registry)
    ensures r in InstanceRegistries(modelId, inst, suffixes) <==>
      inst.address.Some? && exists s :: s in suffixes && r == Registry(Some(RegistryName(modelId, inst.id, s)), inst.address.value)
  {
    if suffixes != [] {
      InstanceRegistriesMember(modelId, inst, suffixes[1..], r);
      assert suffixes == [suffixes[0]] + suffixes[1..];
    }
  }

  lemma {:induction false} ModelRegistriesMember(modelId: nat, insts: seq<InstanceEntry>, suffixes: seq<Option<string>>, r: Registry)
    ensures r in ModelRegistries(modelId, insts, suffixes) <==>
      exists inst :: inst in insts && r in InstanceRegistries(modelId, inst, suffixes)
  {
    if insts != [] {
      ModelRegistriesMember(modelId, insts[1..], suffixes, r);
      if r in ModelRegistries(modelId, insts[1..], suffixes) {
        var inst :| inst in insts[1..] && r in InstanceRegistries(modelId, inst, suffixes);
        assert inst in insts;
      } else if r in ModelRegistries(modelId, insts, suffixes) {
        assert insts[0] in insts && r in InstanceRegistries(modelId, insts[0], suffixes);
      }
      if inst :| inst in insts && r in InstanceRegistries(modelId, inst, suffixes) {
        assert inst == insts[0] || inst in insts[1..];
      }
    }
  }

  /** The registry of an instance, plain or for one of the model's adapters. */
  ghost predicate Publishes(m: ModelSync, inst: InstanceEntry, s: Option<string>, r: Registry) {
    && !m.deleted && inst in m.instances && inst.address.Some?
    && (s.None? || s.value in m.loraSuffixes)
    && r == Registry(Some(RegistryName(m.modelId, inst.id, s)), inst.address.value)
  }

  lemma SuffixMember(suffixes: seq<string>, s: Option<string>)
    ensures s in [None] + Map((x: string) => Some(x), suffixes) <==> s.None? || s.value in suffixes
  {
    var all := [None] + Map((x: string) => Some(x), suffixes);
    assert all[0] == None;
    if s.Some? && s.value in suffixes {
      var i :| 0 <= i < |suffixes| && suffixes[i] == s.value;
      assert all[i + 1] == s;
    }
  }

  /** Which entries a model's reconcile wants: one per reachable instance, and
      one more for each of the model's LoRA adapters. */
  lemma WantedEntries(m: ModelSync, r: Registry)
    ensures r in RequestOf(m).desired <==> exists inst, s :: Publishes(m, inst, s, r)
  {
    var suffixes := [None] + Map((s: string) => Some(s), m.loraSuffixes);
    if r in RequestOf(m).desired {
      ModelRegistriesMember(m.modelId, m.instances, suffixes, r);
      var inst :| inst in m.instances && r in InstanceRegistries(m.modelId, inst, suffixes);
      InstanceRegistriesMember(m.modelId, inst, suffixes, r);
      var s :| s in suffixes && r == Registry(Some(RegistryName(m.modelId, inst.id, s)), inst.address.value);
      SuffixMember(m.loraSuffixes, s);
      assert Publishes(m, inst, s, r);
    }
    if inst, s :| Publishes(m, inst, s, r) {
      SuffixMember(m.loraSuffixes, s);
      InstanceRegistriesMember(m.modelId, inst, suffixes, r);
      ModelRegistriesMember(m.modelId, m.instances, suffixes, r);
    }
  }

  /** After its reconcile a model's slice of the registries is exactly what it
      publishes, whatever stood there: one entry per published name, the last
      one wanted, and no other name under its prefix. */
  lemma ModelSliceExact(m: ModelSync, regs: seq<Registry>, n: string)
    requires StartsWith(n, ModelPrefix(m.modelId))
    ensures var q := RequestOf(m);
      Filter(Named(n), Apply(regs, q)) == if n in NamesOf(q.desired) then [LastOf(q.desired, n)] else []
  {
    DiffOfName(RequestOf(m), regs, n);
    NeedByName(RequestOf(m), regs);
    if !Diff(RequestOf(m), regs).0 {
      assert !Changes(RequestOf(m), regs, n);
    }
  }

  // ----- the size of a model's slice ---------------------------------------

  ghost predicate DistinctNames(rs: seq<Registry>) {
    forall i, j :: 0 <= i < j < |rs| ==> rs[i].name != rs[j].name
  }

  /** What the source makes sure of: every instance once, every adapter once and
      with a suffix. */
  ghost predicate ProperSync(m: ModelSync) {
    && (forall i, j :: 0 <= i < j < |m.instances| ==> m.instances[i].id != m.instances[j].id)
    && (forall i, j :: 0 <= i < j < |m.loraSuffixes| ==> m.loraSuffixes[i] != m.loraSuffixes[j])
    && "" !in m.loraSuffixes
  }

  ghost predicate DistinctSuffixes(suffixes: seq<Option<string>>) {
    forall i, j :: 0 <= i < j < |suffixes| ==> suffixes[i].GetOr("") != suffixes[j].GetOr("")
  }

  lemma {:induction false} InstanceSlice(modelId: nat, inst: InstanceEntry, suffixes: seq<Option<string>>)
    requires DistinctSuffixes(suffixes)
    ensures DistinctNames(InstanceRegistries(modelId, inst, suffixes))
    ensures |InstanceRegistries(modelId, inst, suffixes)| == if inst.address.Some? then |suffixes| else 0
  {
    if suffixes != [] && inst.address.Some? {
      var rest := InstanceRegistries(modelId, inst, suffixes[1..]);
      InstanceSlice(modelId, inst, suffixes[1..]);
      forall k | 0 <= k < |rest| ensures rest[k].name != Some(RegistryName(modelId, inst.id, suffixes[0])) {
        InstanceRegistriesMember(modelId, inst, suffixes[1..], rest[k]);
        var s :| s in suffixes[1..] && rest[k] == Registry(Some(RegistryName(modelId, inst.id, s)), inst.address.value);
        RegistryNamesIff(modelId, inst.id, s, modelId, inst.id, suffixes[0]);
      }
    }
  }

  function Reachable(insts: seq<InstanceEntry>): nat {
    if insts == [] then 0 else (if insts[0].address.Some? then 1 else 0) + Reachable(insts[1..])
  }

  lemma {:induction false} ModelSliceCount(modelId: nat, insts: seq<InstanceEntry>, suffixes: seq<Option<string>>)
    requires DistinctSuffixes(suffixes)
    ensures |ModelRegistries(modelId, insts, suffixes)| == Reachable(insts) * |suffixes|
  {
    if insts != [] {
      InstanceSlice(modelId, insts[0], suffixes);
      ModelSliceCount(modelId, insts[1..], suffixes);
      Distribute(1, Reachable(insts[1..]), |suffixes|);
    }
  }

  lemma {:induction false} ModelSliceDistinct(modelId: nat, insts: seq<InstanceEntry>, suffixes: seq<Option<string>>)
    requires DistinctSuffixes(suffixes) && forall i, j :: 0 <= i < j < |insts| ==> insts[i].id != insts[j].id
    ensures DistinctNames(ModelRegistries(modelId, insts, suffixes))
  {
    if insts != [] {
      var own, rest := InstanceRegistries(modelId, insts[0], suffixes), ModelRegistries(modelId, insts[1..], suffixes);
      InstanceSlice(modelId, insts[0], suffixes);
      ModelSliceDistinct(modelId, insts[1..], suffixes);
      forall a, b | 0 <= a < |own| && 0 <= b < |rest| ensures own[a].name != rest[b].name {
        InstancesApart(modelId, insts, suffixes, own[a], rest[b]);
      }
      DistinctConcat(own, rest);
    }
  }

  lemma DistinctConcat(a: seq<Registry>, b: seq<Registry>)
    requires DistinctNames(a) && DistinctNames(b)
    requires forall i, j :: 0 <= i < |a| && 0 <= j < |b| ==> a[i].name != b[j].name
    ensures DistinctNames(a + b)
  {
  }

  lemma InstancesApart(modelId: nat, insts: seq<InstanceEntry>, suffixes: seq<Option<string>>, x: Registry, y: Registry)
    requires insts != [] && forall i, j :: 0 <= i < j < |insts| ==> insts[i].id != insts[j].id
    requires x in InstanceRegistries(modelId, insts[0], suffixes) && y in ModelRegistries(modelId, insts[1..], suffixes)
    ensures x.name != y.name
  {
    InstanceRegistriesMember(modelId, insts[0], suffixes, x);
    ModelRegistriesMember(modelId, insts[1..], suffixes, y);
    var inst :| inst in insts[1..] && y in InstanceRegistries(modelId, inst, suffixes);
    InstanceRegistriesMember(modelId, inst, suffixes, y);
    var s :| s in suffixes && x.name == Some(RegistryName(modelId, insts[0].id, s));
    var t :| t in suffixes && y.name == Some(RegistryName(modelId, inst.id, t));
    var k :| 0 <= k < |insts[1..]| && insts[1..][k] == inst;
    assert insts[k + 1] == inst;
    RegistryNamesIff(modelId, insts[0].id, s, modelId, inst.id, t);
  }

  /** With distinct names, every desired entry is the one the dictionary holds. */
  lemma {:induction false} OnlyOfName(rs: seq<Registry>, n: string)
    requires DistinctNames(rs)
    ensures Filter(Named(n), rs) == if n in NamesOf(rs) then [LastOf(rs, n)] else []
  {
    if rs != [] {
      var front, last := rs[..|rs| - 1], rs[|rs| - 1];
      assert rs == front + [last];
      OnlyOfName(front, n);
      FilterConcat(Named(n), front, [last]);
      assert [last][1..] == [];
      if last.name == Some(n) {
        FilterNone(Named(n), front);
      }
    }
  }

  function Under(modelId: nat): Registry -> bool {
    (r: Registry) => r.name.Some? && StartsWith(r.name.value, ModelPrefix(modelId))
  }

  /** After its reconcile the entries under a model's prefix are, each once, exactly
      those it publishes: as many as it has reachable instances, times one more
      than it has adapters; none once it is deleted. */
  lemma ModelSliceSize(m: ModelSync, regs: seq<Registry>)
    requires ProperSync(m)
    ensures var slice := Filter(Under(m.modelId), Apply(regs, RequestOf(m)));
      && multiset(slice) == multiset(RequestOf(m).desired)
      && |slice| == (if m.deleted then 0 else Reachable(m.instances) * (1 + |m.loraSuffixes|))
  {
    var q, out := RequestOf(m), Apply(regs, RequestOf(m));
    var slice := Filter(Under(m.modelId), out);
    RequestIsProper(m);
    forall r ensures multiset(slice)[r] == multiset(q.desired)[r] {
      FilterCount(Under(m.modelId), out, r);
      if Under(m.modelId)(r) {
        var n := r.name.value;
        ModelSliceExact(m, regs, n);
        OnlyOfName(q.desired, n);
        FilterCount(Named(n), out, r);
        FilterCount(Named(n), q.desired, r);
      } else {
        ModelNames(m.modelId, m.instances, [None] + Map((s: string) => Some(s), m.loraSuffixes));
        assert r !in q.desired;
      }
    }
    assert |slice| == |multiset(slice)| == |multiset(q.desired)| == |q.desired|;
  }

  lemma RequestIsProper(m: ModelSync)
    requires ProperSync(m)
    ensures DistinctNames(RequestOf(m).desired)
    ensures |RequestOf(m).desired| == if m.deleted then 0 else Reachable(m.instances) * (1 + |m.loraSuffixes|)
  {
    var suffixes := [None] + Map((s: string) => Some(s), m.loraSuffixes);
    forall i, j | 0 <= i < j < |suffixes| ensures suffixes[i].GetOr("") != suffixes[j].GetOr("") {
      assert suffixes[j] == Some(m.loraSuffixes[j - 1]) && m.loraSuffixes[j - 1] in m.loraSuffixes;
      if i > 0 {
        assert suffixes[i] == Some(m.loraSuffixes[i - 1]);
      }
    }
    ModelSliceCount(m.modelId, m.instances, suffixes);
    ModelSliceDistinct(m.modelId, m.instances, suffixes);
  }

  function Step(): (seq<Registry>, ModelSync) -> seq<Registry> { (regs, m) => Apply(regs, RequestOf(m)) }

  function ModelOf(): ModelSync -> nat { (m: ModelSync) => m.modelId }

  /** However the reconciles of different models interleave, the registries end
      up the same, as long as each model's own reconciles keep their order. */
  lemma ModelInterleavingsConverge(regs: seq<Registry>, xs: seq<ModelSync>, ys: seq<ModelSync>)
    requires Traces.SameHistories(ModelOf(), xs, ys)
    ensures Traces.Run(Step(), regs, xs) == Traces.Run(Step(), regs, ys)
  {
    forall a, b | a in ys && b in ys && ModelOf()(a) != ModelOf()(b) ensures Traces.Commute(Step(), a, b) {
      ModelsApart(a, b);
      forall s ensures Step()(Step()(s, a), b) == Step()(Step()(s, b), a) {
        ApplyCommutes(RequestOf(a), RequestOf(b), s);
      }
    }
    Traces.InterleavingsAgree(Step(), ModelOf(), regs, xs, ys);
  }
}
