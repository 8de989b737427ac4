/** Runs of a shared resource written to by several owners. If the steps of
    different owners commute, the final state depends only on the order of the
    steps of each single owner, not on how the owners interleave. */
module Traces {

  function Run<S, Op>(step: (S, Op) -> S, s: S, ops: seq<Op>): S {
    if ops == [] then s else Run(step, step(s, ops[0]), ops[1..])
  }

  /** The steps of one owner, in order. */
  function Projection<Op, O(==)>(owner: Op -> O, o: O, ops: seq<Op>): seq<Op> {
    if ops == [] then []
    else if owner(ops[0]) == o then [ops[0]] + Projection(owner, o, ops[1..])
    else Projection(owner, o, ops[1..])
  }

  /** `xs` and `ys` interleave the same per-owner histories. */
  ghost predicate SameHistories<Op, O(!new)>(owner: Op -> O, xs: seq<Op>, ys: seq<Op>) {
    forall o :: Projection(owner, o, xs) == Projection(owner, o, ys)
  }

  ghost predicate Commute<S(!new), Op>(step: (S, Op) -> S, a: Op, b: Op) {
    forall s :: step(step(s, a), b) == step(step(s, b), a)
  }

  ghost predicate OwnersCommute<S(!new), Op(!new), O>(step: (S, Op) -> S, owner: Op -> O, ops: seq<Op>) {
    forall a, b :: a in ops && b in ops && owner(a) != owner(b) ==> Commute(step, a, b)
  }

  lemma {:induction false} RunConcat<S, Op>(step: (S, Op) -> S, s: S, a: seq<Op>, b: seq<Op>)
    ensures Run(step, s, a + b) == Run(step, Run(step, s, a), b)
  {
    if a == [] {
      assert a + b == b;
    } else {
      assert (a + b)[1..] == a[1..] + b;
      RunConcat(step, step(s, a[0]), a[1..], b);
    }
  }

  lemma {:induction false} ProjectionConcat<Op, O>(owner: Op -> O, o: O, a: seq<Op>, b: seq<Op>)
    ensures Projection(owner, o, a + b) == Projection(owner, o, a) + Projection(owner, o, b)
  {
    if a == [] {
      assert a + b == b;
    } else {
      assert (a + b)[1..] == a[1..] + b;
      ProjectionConcat(owner, o, a[1..], b);
    }
  }

  lemma {:induction false} ProjectionMember<Op, O>(owner: Op -> O, o: O, ops: seq<Op>, x: Op)
    ensures x in Projection(owner, o, ops) <==> x in ops && owner(x) == o
  {
    if ops != [] {
      assert ops == [ops[0]] + ops[1..];
      ProjectionMember(owner, o, ops[1..], x);
    }
  }

  /** A step moves ahead of steps it commutes with. */
  lemma {:induction false} MoveToFront<S(!new), Op>(step: (S, Op) -> S, s: S, before: seq<Op>, x: Op)
    requires forall b :: b in before ==> Commute(step, b, x)
    ensures step(Run(step, s, before), x) == Run(step, step(s, x), before)
  {
    if before != [] {
      var b := before[0];
      assert b in before && Commute(step, b, x);
      assert forall c :: c in before[1..] ==> c in before;
      MoveToFront(step, step(s, b), before[1..], x);
      assert step(step(s, b), x) == step(step(s, x), b);
    }
  }

  /** The first step of an owner, and the other owners' steps before it. */
  lemma {:induction false} FirstOf<Op, O>(owner: Op -> O, o: O, ops: seq<Op>) returns (i: nat)
    requires Projection(owner, o, ops) != []
    ensures i < |ops| && owner(ops[i]) == o && Projection(owner, o, ops)[0] == ops[i]
    ensures Projection(owner, o, ops[..i]) == []
  {
    if owner(ops[0]) == o {
      i := 0;
    } else {
      var j := FirstOf(owner, o, ops[1..]);
      i := j + 1;
      assert ops[..i] == [ops[0]] + ops[1..][..j];
      ProjectionConcat(owner, o, [ops[0]], ops[1..][..j]);
    }
  }

  lemma NonEmptyHistory<Op, O(!new)>(owner: Op -> O, xs: seq<Op>, ys: seq<Op>)
    requires SameHistories(owner, xs, ys) && ys != []
    ensures xs != []
  {
    ProjectionMember(owner, owner(ys[0]), ys, ys[0]);
    ProjectionMember(owner, owner(ys[0]), xs, ys[0]);
  }

  /** Every interleaving of the same histories ends in the same state. */
  lemma {:induction false} InterleavingsAgree<S(!new), Op(!new), O(!new)>(
      step: (S, Op) -> S, owner: Op -> O, s: S, xs: seq<Op>, ys: seq<Op>)
    requires SameHistories(owner, xs, ys) && OwnersCommute(step, owner, ys)
    ensures Run(step, s, xs) == Run(step, s, ys)
    decreases |xs|
  {
    if xs == [] {
      if ys != [] {
        NonEmptyHistory(owner, xs, ys);
        assert false;
      }
    } else {
      var x, o := xs[0], owner(xs[0]);
      assert Projection(owner, o, xs) == Projection(owner, o, ys);
      var i := FirstOf(owner, o, ys);
      var before, after := ys[..i], ys[i + 1..];
      assert ys[i] == x;
      assert ys == before + ([x] + after);
      forall b | b in before ensures Commute(step, b, x) {
        ProjectionMember(owner, o, before, b);
        assert b in ys && x in ys;
      }
      MoveToFront(step, s, before, x);
      RunConcat(step, s, before, [x] + after);
      RunConcat(step, step(s, x), before, after);
      assert Run(step, s, ys) == Run(step, step(s, x), before + after);
      assert ([x] + after)[1..] == after;
      forall p ensures Projection(owner, p, xs[1..]) == Projection(owner, p, before + after) {
        RemoveFirst(owner, p, xs, before, x, after);
      }
      assert forall b :: b in before + after ==> b in ys;
      InterleavingsAgree(step, owner, step(s, x), xs[1..], before + after);
    }
  }

  lemma RemoveFirst<Op, O(!new)>(owner: Op -> O, p: O, xs: seq<Op>, before: seq<Op>, x: Op, after: seq<Op>)
    requires xs != [] && xs[0] == x && Projection(owner, owner(x), before) == []
    requires SameHistories(owner, xs, before + ([x] + after))
    ensures Projection(owner, p, xs[1..]) == Projection(owner, p, before + after)
  {
    ProjectionConcat(owner, p, before, after);
    ProjectionConcat(owner, p, before, [x] + after);
    assert ([x] + after)[1..] == after;
    assert Projection(owner, p, xs) == Projection(owner, p, before + ([x] + after));
    if owner(x) == p {
      assert Projection(owner, p, xs)[1..] == Projection(owner, p, xs[1..]);
      assert ([x] + Projection(owner, p, after))[1..] == Projection(owner, p, after);
    }
  }
}
