/** Python lists as sequences: filtering, as every list comprehension and
    "keep these" loop of the gateway code does it. */
module Lists {

  datatype Option<+T> = None | Some(value: T) {
    function GetOr(default: T): T {
      match this
      case None => default
      case Some(v) => v
    }
  }

  /** The elements of `s` that satisfy `f`, in their original order. */
  function Filter<T>(f: T -> bool, s: seq<T>): seq<T> {
    if s == [] then []
    else if f(s[0]) then [s[0]] + Filter(f, s[1..])
    else Filter(f, s[1..])
  }

  function Map<T, U>(f: T -> U, s: seq<T>): (r: seq<U>)
    ensures |r| == |s|
    ensures forall i :: 0 <= i < |s| ==> r[i] == f(s[i])
  {
    if s == [] then [] else [f(s[0])] + Map(f, s[1..])
  }

  lemma {:induction false} FilterConcat<T>(f: T -> bool, a: seq<T>, b: seq<T>)
    ensures Filter(f, a + b) == Filter(f, a) + Filter(f, b)
  {
    if a == [] {
      assert a + b == b;
    } else {
      assert (a + b)[1..] == a[1..] + b;
      FilterConcat(f, a[1..], b);
    }
  }

  lemma {:induction false} FilterMember<T>(f: T -> bool, s: seq<T>, x: T)
    ensures x in Filter(f, s) <==> x in s && f(x)
  {
    if s != [] {
      assert s == [s[0]] + s[1..];
      FilterMember(f, s[1..], x);
    }
  }

  lemma FilterMembers<T>(f: T -> bool, s: seq<T>)
    ensures forall x :: x in Filter(f, s) <==> x in s && f(x)
  {
    forall x: T ensures x in Filter(f, s) <==> x in s && f(x) {
      FilterMember(f, s, x);
    }
  }

  /** Filters that agree on the elements of a list agree on the list. */
  lemma {:induction false} FilterAgree<T>(f: T -> bool, g: T -> bool, s: seq<T>)
    requires forall x :: x in s ==> f(x) == g(x)
    ensures Filter(f, s) == Filter(g, s)
  {
    if s != [] {
      assert s[0] in s;
      assert forall x :: x in s[1..] ==> x in s;
      FilterAgree(f, g, s[1..]);
    }
  }

  lemma {:induction false} FilterAll<T>(f: T -> bool, s: seq<T>)
    requires forall x :: x in s ==> f(x)
    ensures Filter(f, s) == s
  {
    if s != [] {
      assert s[0] in s;
      assert forall x :: x in s[1..] ==> x in s;
      FilterAll(f, s[1..]);
    }
  }

  lemma {:induction false} FilterNone<T>(f: T -> bool, s: seq<T>)
    requires forall x :: x in s ==> !f(x)
    ensures Filter(f, s) == []
  {
    if s != [] {
      assert s[0] in s;
      assert forall x :: x in s[1..] ==> x in s;
      FilterNone(f, s[1..]);
    }
  }

  lemma {:induction false} FilterBoth<T>(f: T -> bool, g: T -> bool, s: seq<T>)
    ensures Filter(f, Filter(g, s)) == Filter(x => f(x) && g(x), s)
  {
    if s != [] {
      var rest := Filter(g, s[1..]);
      FilterBoth(f, g, s[1..]);
      assert ([s[0]] + rest)[1..] == rest;
    }
  }

  /** Two filters may be applied in either order. */
  lemma FilterSwap<T>(f: T -> bool, g: T -> bool, s: seq<T>)
    ensures Filter(f, Filter(g, s)) == Filter(g, Filter(f, s))
  {
    FilterBoth(f, g, s);
    FilterBoth(g, f, s);
    FilterAgree(x => f(x) && g(x), x => g(x) && f(x), s);
  }

  /** Filtering further a part that is itself a filtered list. */
  lemma FilterFurther<T>(part: T -> bool, keep: T -> bool, s: seq<T>, was: T -> bool, now: T -> bool, t: seq<T>)
    requires Filter(part, s) == Filter(was, t)
    requires forall x :: x in t ==> now(x) == (keep(x) && was(x))
    ensures Filter(part, Filter(keep, s)) == Filter(now, t)
  {
    FilterSwap(part, keep, s);
    FilterBoth(keep, was, t);
    FilterAgree(x => keep(x) && was(x), now, t);
  }

  /** One element more at the end of the list, as a loop that appends sees it. */
  lemma FilterSnoc<T>(f: T -> bool, s: seq<T>, i: nat)
    requires i < |s|
    ensures Filter(f, s[..i + 1]) == Filter(f, s[..i]) + if f(s[i]) then [s[i]] else []
  {
    assert s[..i + 1] == s[..i] + [s[i]];
    FilterConcat(f, s[..i], [s[i]]);
  }

  /** The counts of a filtered list. */
  lemma {:induction false} FilterCount<T>(f: T -> bool, s: seq<T>, x: T)
    ensures multiset(Filter(f, s))[x] == if f(x) then multiset(s)[x] else 0
  {
    if s != [] {
      assert s == [s[0]] + s[1..];
      FilterCount(f, s[1..], x);
    }
  }
}
