/** The McpBridge resource as its reconcilers update it
    (gpustack/gateway/utils.py:541-580, 627-690). */
module McpBridge {
  import opened StableSort
  import opened Names
  import opened Registries

  /** What is left of the dictionary of desired entries: its keys in insertion
      order, and for each key the index of the last entry of that name. */
  ghost predicate Dictionary(q: Request, keys: seq<string>, index: map<string, nat>) {
    && Pending(q, keys)
    && (forall n :: n in index <==> n in keys)
    && (forall n :: n in index ==> index[n] < |q.desired| && q.desired[index[n]] == LastOf(q.desired, n))
  }

  lemma PopKeepsDictionary(q: Request, keys: seq<string>, index: map<string, nat>, n: string)
    requires Dictionary(q, keys, index)
    ensures Dictionary(q, Without(keys, n), index - {n})
  {
    WithoutPending(q, keys, n);
  }

  /** `diff_registries`. */
  method DiffRegistries(q: Request, existing: seq<Registry>) returns (needUpdate: bool, result: seq<Registry>)
    ensures (needUpdate, result) == Diff(q, existing)
  {
    var keys, index := IndexDesired(q.desired);
    NamesDistinct(q.desired);
    var total, changed, left, rest := WalkExisting(q, existing, keys, index);
    var added := AddNew(q, left, rest);
    needUpdate := changed || left != [];
    result := Sort(ByName(), total + added);
  }

  /** The loop over the existing entries, popping the dictionary. */
  method WalkExisting(q: Request, existing: seq<Registry>, names: seq<string>, entries: map<string, nat>)
    returns (total: seq<Registry>, needUpdate: bool, keys: seq<string>, index: map<string, nat>)
    requires Dictionary(q, names, entries)
    ensures Dictionary(q, keys, index)
    ensures Walk(q, existing, names) == Walked(total, needUpdate, keys)
  {
    total, needUpdate, keys, index := [], false, names, entries;
    assert existing[0..] == existing;
    for i := 0 to |existing|
      invariant Dictionary(q, keys, index)
      invariant var w := Walk(q, existing[i..], keys);
        Walk(q, existing, names) == Walked(total + w.kept, needUpdate || w.changed, w.left)
    {
      var registry := existing[i];
      ghost var before, w := total, Walk(q, existing[i..], keys);
      assert existing[i..][1..] == existing[i + 1..];
      if registry.name.None? || registry.name.value !in index {
        if registry.name.Some? && ((q.deletePrefix.Some? && StartsWith(registry.name.value, q.deletePrefix.value)) ||
                                   registry.name.value in q.deleteNames) {
          needUpdate := true;
        } else {
          total := total + [registry];
          assert total + Walk(q, existing[i + 1..], keys).kept == before + w.kept;
        }
      } else {
        var name := registry.name.value;
        var idx := index[name];
        PopKeepsDictionary(q, keys, index, name);
        index, keys := index - {name}, Without(keys, name);
        if registry != q.desired[idx] {
          needUpdate := true;
          registry := q.desired[idx];
        }
        total := total + [registry];
        assert total + Walk(q, existing[i + 1..], keys).kept == before + w.kept;
      }
    }
    assert existing[|existing|..] == [];
  }

  /** The loop over what is left of the dictionary. */
  method AddNew(q: Request, keys: seq<string>, index: map<string, nat>) returns (added: seq<Registry>)
    requires Dictionary(q, keys, index)
    ensures added == Wanted(q, keys)
  {
    added := [];
    assert keys[0..] == keys;
    for j := 0 to |keys|
      invariant added + Wanted(q, keys[j..]) == Wanted(q, keys)
    {
      assert keys[j] in keys && keys[j..][1..] == keys[j + 1..];
      added := added + [q.desired[index[keys[j]]]];
    }
    assert keys[|keys|..] == [];
  }

  /** The dictionary comprehension: a repeated name keeps its first place and
      takes the last index. */
  method IndexDesired(desired: seq<Registry>) returns (keys: seq<string>, index: map<string, nat>)
    ensures keys == NamesOf(desired)
    ensures forall n :: n in index <==> n in keys
    ensures forall n :: n in index ==> index[n] < |desired| && desired[index[n]] == LastOf(desired, n)
  {
    keys, index := [], map[];
    for i := 0 to |desired|
      invariant keys == NamesOf(desired[..i])
      invariant forall n :: n in index <==> n in keys
      invariant forall n :: n in index ==> index[n] < i && desired[index[n]] == LastOf(desired[..i], n)
    {
      assert desired[..i + 1][..i] == desired[..i];
      if desired[i].name.Some? {
        if desired[i].name.value !in index {
          keys := keys + [desired[i].name.value];
        }
        index := index[desired[i].name.value := i];
      }
    }
    assert desired[..|desired|] == desired;
  }

  class Bridge {
    var registries: seq<Registry>
    var writes: nat

    constructor (registries: seq<Registry>)
      ensures this.registries == registries && writes == 0
    {
      this.registries, writes := registries, 0;
    }

    /** `ensure_mcp_bridge` on an existing resource: written only if the diff
        asks for it, that is, only if the entries change. */
    method Ensure(q: Request)
      modifies this
      ensures registries == Apply(old(registries), q)
      ensures writes == old(writes) + if multiset(registries) == multiset(old(registries)) then 0 else 1
    {
      var needUpdate, list := DiffRegistries(q, registries);
      NeedUpdateIff(q, registries);
      if needUpdate {
        SortSorted(ByName(), Total(q, registries).1);
        SortOfSorted(ByName(), list);
        registries := Sort(ByName(), list);
        writes := writes + 1;
      }
    }
  }
}
