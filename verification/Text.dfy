/** Python's string splitting and joining, and its sorted sets of strings. */
module Text {
  import opened StableSort

  /** Python's `s.split(c)`. */
  function Split(s: string, c: char): (parts: seq<string>)
    ensures parts != []
  {
    if s == [] then [""] else
    var rest := Split(s[1..], c);
    if s[0] == c then [""] + rest else [[s[0]] + rest[0]] + rest[1..]
  }

  lemma {:induction false} SplitOne(a: string, c: char)
    requires c !in a
    ensures Split(a, c) == [a]
  {
    if a != [] {
      SplitOne(a[1..], c);
      assert a[0] != c && [a[0]] + a[1..] == a;
    }
  }

  lemma {:induction false} SplitFirst(a: string, c: char, rest: string)
    requires c !in a
    ensures Split(a + [c] + rest, c) == [a] + Split(rest, c)
  {
    var s := a + [c] + rest;
    if a == [] {
      assert s[1..] == rest;
    } else {
      assert s[1..] == a[1..] + [c] + rest;
      SplitFirst(a[1..], c, rest);
      assert s[0] == a[0] && a[0] != c && [a[0]] + a[1..] == a;
      assert ([a[1..]] + Split(rest, c))[1..] == Split(rest, c);
    }
  }

  lemma {:induction false} SplitPlain(s: string, c: char)
    ensures forall i :: 0 <= i < |Split(s, c)| ==> c !in Split(s, c)[i]
  {
    if s != [] {
      SplitPlain(s[1..], c);
      var rest := Split(s[1..], c);
      assert c !in rest[0];
    }
  }

  /** Python's `c.join(parts)`. */
  function JoinWith(parts: seq<string>, c: char): string
    requires parts != []
  {
    if |parts| == 1 then parts[0] else parts[0] + [c] + JoinWith(parts[1..], c)
  }

  /** Splitting loses nothing: the parts joined again are the string. */
  lemma {:induction false} JoinOfSplit(s: string, c: char)
    ensures JoinWith(Split(s, c), c) == s
  {
    if s != [] {
      JoinOfSplit(s[1..], c);
      var rest := Split(s[1..], c);
      var parts := Split(s, c);
      if s[0] == c {
        assert parts[1..] == rest;
        assert JoinWith(parts, c) == "" + [c] + s[1..];
      } else {
        assert parts[1..] == rest[1..] && parts[0] == [s[0]] + rest[0];
        assert JoinWith(parts, c) == [s[0]] + JoinWith(rest, c);
      }
      assert s == [s[0]] + s[1..];
    }
  }

  /** Joining loses nothing either, if no part holds the separator. */
  lemma {:induction false} SplitOfJoin(parts: seq<string>, c: char)
    requires parts != [] && forall p :: p in parts ==> c !in p
    ensures Split(JoinWith(parts, c), c) == parts
  {
    assert parts[0] in parts;
    if |parts| == 1 {
      SplitOne(parts[0], c);
    } else {
      assert forall p :: p in parts[1..] ==> p in parts;
      SplitOfJoin(parts[1..], c);
      SplitFirst(parts[0], c, JoinWith(parts[1..], c));
      assert parts == [parts[0]] + parts[1..];
    }
  }

  // ----- sorted sets -------------------------------------------------------

  predicate Least(x: string, s: set<string>) {
    x in s && forall y :: y in s ==> StringLeq(x, y)
  }

  lemma {:induction false} LeastExists(s: set<string>)
    requires s != {}
    ensures exists x :: Least(x, s)
  {
    var y :| y in s;
    StringTotal(y, y);
    var rest := s - {y};
    if rest == {} {
      assert s == {y};
      assert Least(y, s);
    } else {
      LeastExists(rest);
      var x :| Least(x, rest);
      StringTotal(x, y);
      if StringLeq(x, y) {
        assert Least(x, s);
      } else {
        forall z | z in s ensures StringLeq(y, z) {
          if z != y {
            StringTransitive(y, x, z);
          }
        }
        assert Least(y, s);
      }
    }
  }

  lemma LeastUnique(s: set<string>)
    ensures forall x, y :: Least(x, s) && Least(y, s) ==> x == y
  {
    forall x, y | Least(x, s) && Least(y, s) ensures x == y {
      StringAntisymmetric(x, y);
    }
  }

  /** Python's `sorted` of a set of strings. */
  function SortedSet(s: set<string>): seq<string> {
    if s == {} then [] else
      LeastExists(s);
      LeastUnique(s);
      var x :| x in s && Least(x, s);
      [x] + SortedSet(s - {x})
  }

  ghost predicate Ascending(s: seq<string>) {
    forall i, j :: 0 <= i < j < |s| ==> StringLeq(s[i], s[j]) && s[i] != s[j]
  }

  /** The strings of the set, each once, in ascending order. */
  ghost predicate Enumerates(s: seq<string>, of: set<string>) {
    Ascending(s) && (forall x :: x in s <==> x in of)
  }

  lemma {:induction false} SortedSetEnumerates(of: set<string>)
    ensures Enumerates(SortedSet(of), of)
  {
    if of != {} {
      var s := SortedSet(of);
      LeastUnique(of);
      var x := s[0];
      SortedSetEnumerates(of - {x});
      assert s == [x] + SortedSet(of - {x});
      forall y ensures y in s <==> y in of {
        assert y in s <==> y == x || y in SortedSet(of - {x});
      }
      forall i, j | 0 <= i < j < |s| ensures StringLeq(s[i], s[j]) && s[i] != s[j] {
        assert s[j] == SortedSet(of - {x})[j - 1] && s[j] in SortedSet(of - {x});
      }
    }
  }

  /** There is only one such list. */
  lemma {:induction false} EnumeratesUnique(s: seq<string>, t: seq<string>, of: set<string>)
    requires Enumerates(s, of) && Enumerates(t, of)
    ensures s == t
  {
    assert t != [] ==> t[0] in t;
    if s != [] {
      assert s[0] in s && s[0] in t && t[0] in s;
      if s[0] != t[0] { StringAntisymmetric(s[0], t[0]); }
      EnumeratesTail(s, of);
      EnumeratesTail(t, of);
      EnumeratesUnique(s[1..], t[1..], of - {s[0]});
      assert s == [s[0]] + s[1..] && t == [t[0]] + t[1..];
    }
  }

  lemma EnumeratesTail(s: seq<string>, of: set<string>)
    requires Enumerates(s, of) && s != []
    ensures Enumerates(s[1..], of - {s[0]})
  {
    assert forall x :: x in s <==> x == s[0] || x in s[1..];
  }
}
