/** Python's `list.sort(key=...)`: a stable sort by a key that is a string or a
    tuple of strings. A key is a sequence of strings compared
    lexicographically, each string compared by code points. */
module StableSort {
  import opened Lists

  type Key = seq<string>

  predicate StringLeq(a: string, b: string) {
    a == [] || (b != [] && (a[0] < b[0] || (a[0] == b[0] && StringLeq(a[1..], b[1..]))))
  }

  predicate KeyLeq(a: Key, b: Key) {
    a == [] || (b != [] && if a[0] == b[0] then KeyLeq(a[1..], b[1..]) else StringLeq(a[0], b[0]))
  }

  lemma {:induction false} StringTotal(a: string, b: string)
    ensures StringLeq(a, b) || StringLeq(b, a)
  {
    if a != [] && b != [] {
      StringTotal(a[1..], b[1..]);
    }
  }

  lemma {:induction false} StringAntisymmetric(a: string, b: string)
    requires StringLeq(a, b) && StringLeq(b, a)
    ensures a == b
  {
    if a != [] {
      StringAntisymmetric(a[1..], b[1..]);
      assert a == [a[0]] + a[1..] && b == [b[0]] + b[1..];
    }
  }

  lemma {:induction false} StringTransitive(a: string, b: string, c: string)
    requires StringLeq(a, b) && StringLeq(b, c)
    ensures StringLeq(a, c)
  {
    if a != [] && a[0] == b[0] == c[0] {
      StringTransitive(a[1..], b[1..], c[1..]);
    }
  }

  /** `a` has the smaller character where the two first differ. */
  ghost predicate SmallerAt(a: string, b: string, i: nat) {
    i < |a| && i < |b| && a[..i] == b[..i] && a[i] < b[i]
  }

  /** The order is that of the first differing character; a string comes after its
      own beginnings. */
  lemma {:induction false} StringLeqIff(a: string, b: string)
    ensures StringLeq(a, b) <==> a <= b || exists i :: SmallerAt(a, b, i)
  {
    forall i: nat | SmallerAt(a, b, i) && i > 0 ensures a[0] == b[0] {
      assert a[0] == a[..i][0] && b[0] == b[..i][0];
    }
    if a != [] && b != [] && a[0] == b[0] {
      var x, y := a[1..], b[1..];
      StringLeqIff(x, y);
      assert a == [a[0]] + x && b == [b[0]] + y;
      if i: nat :| SmallerAt(x, y, i) {
        assert a[..i + 1] == [a[0]] + x[..i] && b[..i + 1] == [b[0]] + y[..i];
        assert SmallerAt(a, b, i + 1);
      }
      if i: nat :| SmallerAt(a, b, i) {
        assert x[..i - 1] == a[..i][1..] && y[..i - 1] == b[..i][1..];
        assert SmallerAt(x, y, i - 1);
      }
    } else if a != [] && b != [] && a[0] < b[0] {
      assert a[..0] == b[..0];
      assert SmallerAt(a, b, 0);
    }
  }

  lemma {:induction false} KeyReflexive(a: Key)
    ensures KeyLeq(a, a)
  {
    if a != [] {
      KeyReflexive(a[1..]);
    }
  }

  lemma {:induction false} KeyTotal(a: Key, b: Key)
    ensures KeyLeq(a, b) || KeyLeq(b, a)
  {
    if a != [] && b != [] {
      StringTotal(a[0], b[0]);
      KeyTotal(a[1..], b[1..]);
    }
  }

  lemma {:induction false} KeyAntisymmetric(a: Key, b: Key)
    requires KeyLeq(a, b) && KeyLeq(b, a)
    ensures a == b
  {
    if a != [] {
      if a[0] != b[0] {
        StringAntisymmetric(a[0], b[0]);
      }
      KeyAntisymmetric(a[1..], b[1..]);
      assert a == [a[0]] + a[1..] && b == [b[0]] + b[1..];
    }
  }

  lemma {:induction false} KeyTransitive(a: Key, b: Key, c: Key)
    requires KeyLeq(a, b) && KeyLeq(b, c)
    ensures KeyLeq(a, c)
  {
    if a != [] {
      if a[0] == b[0] == c[0] {
        KeyTransitive(a[1..], b[1..], c[1..]);
      } else if a[0] != b[0] && b[0] != c[0] {
        StringTransitive(a[0], b[0], c[0]);
        if a[0] == c[0] {
          StringAntisymmetric(a[0], b[0]);
        }
      }
    }
  }

  /** Insertion before the first element whose key is not smaller, which keeps
      an inserted element ahead of later ones with an equal key. */
  function Insert<T>(key: T -> Key, x: T, s: seq<T>): seq<T> {
    if s == [] then [x]
    else if KeyLeq(key(x), key(s[0])) then [x] + s
    else [s[0]] + Insert(key, x, s[1..])
  }

  function Sort<T>(key: T -> Key, s: seq<T>): seq<T> {
    if s == [] then [] else Insert(key, s[0], Sort(key, s[1..]))
  }

  ghost predicate Sorted<T>(key: T -> Key, s: seq<T>) {
    forall i, j :: 0 <= i < j < |s| ==> KeyLeq(key(s[i]), key(s[j]))
  }

  function HasKey<T>(key: T -> Key, k: Key): T -> bool {
    x => key(x) == k
  }

  lemma {:induction false} InsertCount<T>(key: T -> Key, x: T, s: seq<T>)
    ensures multiset(Insert(key, x, s)) == multiset{x} + multiset(s)
  {
    if s != [] {
      assert s == [s[0]] + s[1..];
      InsertCount(key, x, s[1..]);
    }
  }

  /** Sorting rearranges: nothing is lost, added or repeated. */
  lemma {:induction false} SortCount<T>(key: T -> Key, s: seq<T>)
    ensures multiset(Sort(key, s)) == multiset(s)
  {
    if s != [] {
      assert s == [s[0]] + s[1..];
      SortCount(key, s[1..]);
      InsertCount(key, s[0], Sort(key, s[1..]));
    }
  }

  lemma SortMembers<T>(key: T -> Key, s: seq<T>)
    ensures forall x :: x in Sort(key, s) <==> x in s
  {
    SortCount(key, s);
    forall x: T ensures x in Sort(key, s) <==> x in s {
      assert x in Sort(key, s) <==> x in multiset(Sort(key, s));
      assert x in s <==> x in multiset(s);
    }
  }

  lemma ConsSorted<T>(key: T -> Key, x: T, s: seq<T>)
    requires Sorted(key, s) && forall y :: y in s ==> KeyLeq(key(x), key(y))
    ensures Sorted(key, [x] + s)
  {
    var r := [x] + s;
    forall i, j | 0 <= i < j < |r| ensures KeyLeq(key(r[i]), key(r[j])) {
      assert r[j] == s[j - 1] && s[j - 1] in s;
    }
  }

  lemma TailNotSmaller<T>(key: T -> Key, s: seq<T>, y: T)
    requires Sorted(key, s) && s != [] && y in s[1..]
    ensures KeyLeq(key(s[0]), key(y))
  {
    var j :| 0 <= j < |s[1..]| && s[1..][j] == y;
    assert s[j + 1] == y;
  }

  lemma {:induction false} InsertSorted<T>(key: T -> Key, x: T, s: seq<T>)
    requires Sorted(key, s)
    ensures Sorted(key, Insert(key, x, s))
  {
    if s == [] {
    } else if KeyLeq(key(x), key(s[0])) {
      forall y | y in s ensures KeyLeq(key(x), key(y)) {
        HeadLeast(key, s, y);
        KeyTransitive(key(x), key(s[0]), key(y));
      }
      ConsSorted(key, x, s);
    } else {
      KeyTotal(key(x), key(s[0]));
      var rest := Insert(key, x, s[1..]);
      InsertSorted(key, x, s[1..]);
      InsertCount(key, x, s[1..]);
      forall y | y in rest ensures KeyLeq(key(s[0]), key(y)) {
        assert y in multiset(rest);
        if y != x {
          assert y in multiset(s[1..]);
          TailNotSmaller(key, s, y);
        }
      }
      ConsSorted(key, s[0], rest);
    }
  }

  lemma {:induction false} SortSorted<T>(key: T -> Key, s: seq<T>)
    ensures Sorted(key, Sort(key, s))
  {
    if s != [] {
      SortSorted(key, s[1..]);
      InsertSorted(key, s[0], Sort(key, s[1..]));
    }
  }

  lemma {:induction false} InsertFront<T>(key: T -> Key, x: T, s: seq<T>)
    requires forall y :: y in s ==> KeyLeq(key(x), key(y))
    ensures Insert(key, x, s) == [x] + s
  {
    if s != [] {
      assert s[0] in s;
    }
  }

  /** Sorting a sorted list changes nothing. */
  lemma {:induction false} SortOfSorted<T>(key: T -> Key, s: seq<T>)
    requires Sorted(key, s)
    ensures Sort(key, s) == s
  {
    if s != [] {
      SortOfSorted(key, s[1..]);
      InsertFront(key, s[0], s[1..]);
    }
  }

  lemma {:induction false} FilterInsert<T>(f: T -> bool, key: T -> Key, x: T, s: seq<T>)
    requires Sorted(key, s)
    ensures Filter(f, Insert(key, x, s)) == if f(x) then Insert(key, x, Filter(f, s)) else Filter(f, s)
  {
    if s == [] {
    } else if KeyLeq(key(x), key(s[0])) {
      forall y | y in Filter(f, s) ensures KeyLeq(key(x), key(y)) {
        FilterMember(f, s, y);
        HeadLeast(key, s, y);
        KeyTransitive(key(x), key(s[0]), key(y));
      }
      InsertFront(key, x, Filter(f, s));
      assert ([x] + s)[1..] == s;
    } else {
      var rest := Insert(key, x, s[1..]);
      FilterInsert(f, key, x, s[1..]);
      assert ([s[0]] + rest)[1..] == rest;
      if f(s[0]) {
        assert Filter(f, s)[1..] == Filter(f, s[1..]);
      }
    }
  }

  /** Stability, in the form every proof about the gateway lists uses: a filter
      and a stable sort commute. */
  lemma {:induction false} FilterSort<T>(f: T -> bool, key: T -> Key, s: seq<T>)
    ensures Filter(f, Sort(key, s)) == Sort(key, Filter(f, s))
  {
    if s != [] {
      FilterSort(f, key, s[1..]);
      SortSorted(key, s[1..]);
      FilterInsert(f, key, s[0], Sort(key, s[1..]));
    }
  }

  lemma {:induction false} SortSameKey<T>(key: T -> Key, k: Key, s: seq<T>)
    requires forall x :: x in s ==> key(x) == k
    ensures Sort(key, s) == s
  {
    KeyReflexive(k);
    assert Sorted(key, s) by {
      forall i, j | 0 <= i < j < |s| ensures KeyLeq(key(s[i]), key(s[j])) {
        assert s[i] in s && s[j] in s;
      }
    }
    SortOfSorted(key, s);
  }

  /** Elements with equal keys keep their order. */
  lemma SortStable<T>(key: T -> Key, k: Key, s: seq<T>)
    ensures Filter(HasKey(key, k), Sort(key, s)) == Filter(HasKey(key, k), s)
  {
    FilterSort(HasKey(key, k), key, s);
    forall x | x in Filter(HasKey(key, k), s) ensures key(x) == k {
      FilterMember(HasKey(key, k), s, x);
    }
    SortSameKey(key, k, Filter(HasKey(key, k), s));
  }

  /** A sorted list is determined by what it holds under each key. */
  lemma {:induction false} SortedUnique<T>(key: T -> Key, a: seq<T>, b: seq<T>)
    requires Sorted(key, a) && Sorted(key, b)
    requires forall k :: Filter(HasKey(key, k), a) == Filter(HasKey(key, k), b)
    ensures a == b
  {
    if a == [] {
      if b != [] {
        SameHead(key, b, a);
        assert false;
      }
    } else {
      var k := key(a[0]);
      assert Filter(HasKey(key, k), a) == [a[0]] + Filter(HasKey(key, k), a[1..]);
      SameHead(key, a, b);
      forall k' ensures Filter(HasKey(key, k'), a[1..]) == Filter(HasKey(key, k'), b[1..]) {
        var fa, fb := Filter(HasKey(key, k'), a), Filter(HasKey(key, k'), b);
        assert fa == fb;
        if k' == k {
          assert fa[1..] == Filter(HasKey(key, k'), a[1..]);
          assert fb[1..] == Filter(HasKey(key, k'), b[1..]);
        } else {
          assert fa == Filter(HasKey(key, k'), a[1..]);
          assert fb == Filter(HasKey(key, k'), b[1..]);
        }
      }
      SortedUnique(key, a[1..], b[1..]);
      assert a == [a[0]] + a[1..] && b == [b[0]] + b[1..];
    }
  }

  lemma SameHead<T>(key: T -> Key, a: seq<T>, b: seq<T>)
    requires Sorted(key, a) && Sorted(key, b) && a != []
    requires forall k :: Filter(HasKey(key, k), a) == Filter(HasKey(key, k), b)
    ensures b != [] && a[0] == b[0]
  {
    var k := key(a[0]);
    var fa, fb := Filter(HasKey(key, k), a), Filter(HasKey(key, k), b);
    assert fa == fb && fa[0] == a[0];
    FilterMember(HasKey(key, k), b, a[0]);
    assert a[0] in fb;
    assert a[0] in b && b != [];
    var l := key(b[0]);
    var ga, gb := Filter(HasKey(key, l), a), Filter(HasKey(key, l), b);
    assert ga == gb && gb[0] == b[0];
    FilterMember(HasKey(key, l), a, b[0]);
    assert b[0] in a;
    HeadLeast(key, a, b[0]);
    HeadLeast(key, b, a[0]);
    KeyAntisymmetric(k, l);
  }

  lemma HeadLeast<T>(key: T -> Key, s: seq<T>, x: T)
    requires Sorted(key, s) && x in s
    ensures KeyLeq(key(s[0]), key(x))
  {
    KeyReflexive(key(x));
    var j :| 0 <= j < |s| && s[j] == x;
  }

  lemma SortedByFilters<T>(key: T -> Key, a: seq<T>, b: seq<T>)
    requires forall k :: Filter(HasKey(key, k), a) == Filter(HasKey(key, k), b)
    ensures Sort(key, a) == Sort(key, b)
  {
    SortSorted(key, a);
    SortSorted(key, b);
    forall k ensures Filter(HasKey(key, k), Sort(key, a)) == Filter(HasKey(key, k), Sort(key, b)) {
      SortStable(key, k, a);
      SortStable(key, k, b);
    }
    SortedUnique(key, Sort(key, a), Sort(key, b));
  }

  /** Sorting a part of the list first makes no difference. */
  lemma SortAbsorbs<T>(key: T -> Key, a: seq<T>, b: seq<T>)
    ensures Sort(key, a + Sort(key, b)) == Sort(key, a + b)
  {
    forall k ensures Filter(HasKey(key, k), a + Sort(key, b)) == Filter(HasKey(key, k), a + b) {
      FilterConcat(HasKey(key, k), a, Sort(key, b));
      FilterConcat(HasKey(key, k), a, b);
      SortStable(key, k, b);
    }
    SortedByFilters(key, a + Sort(key, b), a + b);
  }

  ghost predicate KeysApart<T(!new)>(key: T -> Key, a: seq<T>, b: seq<T>) {
    forall x, y :: x in a && y in b ==> key(x) != key(y)
  }

  /** Blocks without a key in common may be swapped before a stable sort. */
  lemma SortSwapsBlocks<T(!new)>(key: T -> Key, a: seq<T>, b: seq<T>, c: seq<T>)
    requires KeysApart(key, a, b)
    ensures Sort(key, a + (b + c)) == Sort(key, b + (a + c))
  {
    forall k ensures Filter(HasKey(key, k), a + (b + c)) == Filter(HasKey(key, k), b + (a + c)) {
      var f := HasKey(key, k);
      FilterConcat(f, a, b + c);
      FilterConcat(f, b, c);
      FilterConcat(f, b, a + c);
      FilterConcat(f, a, c);
      if x :| x in a && f(x) {
        FilterNone(f, b);
      } else {
        FilterNone(f, a);
      }
    }
    SortedByFilters(key, a + (b + c), b + (a + c));
  }

  // ----- replacing the owned part of a sorted list -------------------------

  /** Keep what `keep` accepts, put `added` in front, sort: the shape of both
      merges of the ai-proxy resource. */
  function Replace<T>(key: T -> Key, added: seq<T>, keep: T -> bool, s: seq<T>): seq<T> {
    Sort(key, added + Filter(keep, s))
  }

  lemma ReplaceMember<T>(key: T -> Key, added: seq<T>, keep: T -> bool, s: seq<T>, x: T)
    ensures x in Replace(key, added, keep, s) <==> x in added || (x in s && keep(x))
  {
    SortMembers(key, added + Filter(keep, s));
    FilterMember(keep, s, x);
  }

  lemma FilterReplace<T>(f: T -> bool, key: T -> Key, added: seq<T>, keep: T -> bool, s: seq<T>)
    ensures Filter(f, Replace(key, added, keep, s)) == Sort(key, Filter(f, added) + Filter(f, Filter(keep, s)))
  {
    FilterSort(f, key, added + Filter(keep, s));
    FilterConcat(f, added, Filter(keep, s));
  }

  lemma ReplaceTwice<T>(key: T -> Key, a: seq<T>, keepA: T -> bool, b: seq<T>, keepB: T -> bool, s: seq<T>)
    ensures Replace(key, b, keepB, Replace(key, a, keepA, s)) ==
      Sort(key, b + (Filter(keepB, a) + Filter(keepB, Filter(keepA, s))))
  {
    FilterReplace(keepB, key, a, keepA, s);
    SortAbsorbs(key, b, Filter(keepB, a) + Filter(keepB, Filter(keepA, s)));
  }

  /** Replacing a second time by the same entries changes nothing, order
      included, when the entries are among those being replaced. */
  lemma ReplaceIdempotent<T>(key: T -> Key, added: seq<T>, keep: T -> bool, s: seq<T>)
    requires forall x :: x in added ==> !keep(x)
    ensures Replace(key, added, keep, Replace(key, added, keep, s)) == Replace(key, added, keep, s)
  {
    ReplaceTwice(key, added, keep, added, keep, s);
    FilterNone(keep, added);
    forall x | x in Filter(keep, s) ensures keep(x) { FilterMember(keep, s, x); }
    FilterAll(keep, Filter(keep, s));
    assert [] + Filter(keep, s) == Filter(keep, s);
  }

  /** Replacements that leave each other's entries alone and share no key
      commute, order included. */
  lemma ReplaceCommutes<T(!new)>(key: T -> Key, a: seq<T>, keepA: T -> bool, b: seq<T>, keepB: T -> bool, s: seq<T>)
    requires forall x :: x in a ==> keepB(x)
    requires forall x :: x in b ==> keepA(x)
    requires KeysApart(key, a, b)
    ensures Replace(key, b, keepB, Replace(key, a, keepA, s)) == Replace(key, a, keepA, Replace(key, b, keepB, s))
  {
    ReplaceTwice(key, a, keepA, b, keepB, s);
    ReplaceTwice(key, b, keepB, a, keepA, s);
    FilterAll(keepB, a);
    FilterAll(keepA, b);
    FilterSwap(keepA, keepB, s);
    SortSwapsBlocks(key, a, b, Filter(keepA, Filter(keepB, s)));
  }

  // ----- numeric keys ------------------------------------------------------

  function InsertByNumber<T>(num: T -> int, x: T, s: seq<T>): seq<T> {
    if s == [] then [x]
    else if num(x) <= num(s[0]) then [x] + s
    else [s[0]] + InsertByNumber(num, x, s[1..])
  }

  /** `sorted(s, key=num)`. */
  function SortByNumber<T>(num: T -> int, s: seq<T>): seq<T> {
    if s == [] then [] else InsertByNumber(num, s[0], SortByNumber(num, s[1..]))
  }

  lemma {:induction false} InsertByNumberCount<T>(num: T -> int, x: T, s: seq<T>)
    ensures multiset(InsertByNumber(num, x, s)) == multiset{x} + multiset(s)
  {
    if s != [] {
      assert s == [s[0]] + s[1..];
      InsertByNumberCount(num, x, s[1..]);
    }
  }

  lemma InsertByNumberMembers<T>(num: T -> int, x: T, s: seq<T>)
    ensures forall y :: y in InsertByNumber(num, x, s) <==> y == x || y in s
  {
    InsertByNumberCount(num, x, s);
    forall y: T ensures y in InsertByNumber(num, x, s) <==> y == x || y in s {
      assert y in InsertByNumber(num, x, s) <==> y in multiset(InsertByNumber(num, x, s));
    }
  }

  lemma {:induction false} SortByNumberCount<T>(num: T -> int, s: seq<T>)
    ensures multiset(SortByNumber(num, s)) == multiset(s)
  {
    if s != [] {
      assert s == [s[0]] + s[1..];
      SortByNumberCount(num, s[1..]);
      InsertByNumberCount(num, s[0], SortByNumber(num, s[1..]));
    }
  }

  lemma SortByNumberMembers<T>(num: T -> int, s: seq<T>)
    ensures forall x :: x in SortByNumber(num, s) <==> x in s
  {
    SortByNumberCount(num, s);
    forall x: T ensures x in SortByNumber(num, s) <==> x in s {
      assert x in SortByNumber(num, s) <==> x in multiset(SortByNumber(num, s));
      assert x in s <==> x in multiset(s);
    }
  }
}
