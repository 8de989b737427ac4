/** Splitting 100 percent among the instances of weighted targets by largest
    remainders (gpustack/gateway/utils.py:931-978). Quotas are exact here: the
    floor of `w * 100 / total` and the remainder of that division. */
module Apportionment {
  import opened StableSort
  import opened Arithmetic

  /** The elements of `ws` added up. */
  function Sum(ws: seq<nat>): nat {
    if ws == [] then 0 else ws[0] + Sum(ws[1..])
  }

  lemma {:induction false} SumConcat(a: seq<nat>, b: seq<nat>)
    ensures Sum(a + b) == Sum(a) + Sum(b)
  {
    if a == [] {
      assert a + b == b;
    } else {
      assert (a + b)[1..] == a[1..] + b;
      SumConcat(a[1..], b);
    }
  }

  lemma SumUpdate(s: seq<nat>, i: nat, x: nat)
    requires i < |s|
    ensures Sum(s[i := x]) + s[i] == Sum(s) + x
  {
    var t := s[i := x];
    assert s == s[..i] + ([s[i]] + s[i + 1..]);
    assert t == s[..i] + ([x] + s[i + 1..]);
    SumConcat(s[..i], [s[i]] + s[i + 1..]);
    SumConcat(s[..i], [x] + s[i + 1..]);
    assert ([s[i]] + s[i + 1..])[1..] == s[i + 1..] && ([x] + s[i + 1..])[1..] == s[i + 1..];
  }

  // ----- quotas ------------------------------------------------------------

  function Floors(ws: seq<nat>, total: nat): (fs: seq<nat>)
    requires total > 0
    ensures |fs| == |ws|
  {
    if ws == [] then [] else [ws[0] * 100 / total] + Floors(ws[1..], total)
  }

  function Remainders(ws: seq<nat>, total: nat): (rs: seq<nat>)
    requires total > 0
    ensures |rs| == |ws|
  {
    if ws == [] then [] else [ws[0] * 100 % total] + Remainders(ws[1..], total)
  }

  lemma {:induction false} QuotaAt(ws: seq<nat>, total: nat, i: nat)
    requires total > 0 && i < |ws|
    ensures Floors(ws, total)[i] == ws[i] * 100 / total
    ensures Remainders(ws, total)[i] == ws[i] * 100 % total && Remainders(ws, total)[i] < total
  {
    if i == 0 {
      DivMod(ws[0] * 100, total);
    } else {
      QuotaAt(ws[1..], total, i - 1);
    }
  }

  /** What the floors leave over, the remainders make up for exactly. */
  lemma {:induction false} QuotasAddUp(ws: seq<nat>, total: nat)
    requires total > 0
    ensures Sum(ws) * 100 == Sum(Floors(ws, total)) * total + Sum(Remainders(ws, total))
  {
    if ws != [] {
      var rest := ws[1..];
      var q, f := ws[0] * 100 / total, Sum(Floors(rest, total));
      QuotasAddUp(rest, total);
      DivMod(ws[0] * 100, total);
      Distribute(q, f, total);
      assert Floors(ws, total)[1..] == Floors(rest, total) && Remainders(ws, total)[1..] == Remainders(rest, total);
    }
  }

  function Positive(rs: seq<nat>): set<nat> { set j: nat | j < |rs| && rs[j] > 0 }

  lemma PositiveSnoc(init: seq<nat>, last: nat)
    ensures |Positive(init + [last])| == |Positive(init)| + if last > 0 then 1 else 0
  {
    var rs, pos := init + [last], Positive(init);
    if last > 0 {
      assert Positive(rs) == pos + {|init|};
    } else {
      assert Positive(rs) == pos;
    }
  }

  lemma {:induction false} FewPositive(rs: seq<nat>, total: nat)
    requires total > 0 && forall i :: 0 <= i < |rs| ==> rs[i] < total
    ensures Sum(rs) <= |Positive(rs)| * (total - 1)
  {
    if rs != [] {
      var init, last := rs[..|rs| - 1], rs[|rs| - 1];
      FewPositive(init, total);
      assert rs == init + [last];
      SumConcat(init, [last]);
      assert Sum([last]) == last;
      PositiveSnoc(init, last);
      Distribute(|Positive(init)|, 1, total - 1);
    }
  }

  lemma SeatsBound(total: nat, floors: nat, remainders: nat, positive: nat)
    requires total > 0 && total * 100 == floors * total + remainders && remainders <= positive * (total - 1)
    ensures 0 <= 100 - floors <= positive
  {
    assert total * 100 == 100 * total;
    assert positive * (total - 1) == positive * total - positive;
    if floors > 100 {
      StrictlyMore(floors, 100, total);
      assert false;
    }
    assert (100 - floors) * total == 100 * total - floors * total;
    if 100 - floors > positive {
      StrictlyMore(100 - floors, positive, total);
      assert false;
    }
  }

  /** The seats left after the floors: no more than there are positive
      remainders, so no more than there are instances. */
  lemma SeatsLeft(ws: seq<nat>)
    requires Sum(ws) > 0
    ensures var total := Sum(ws);
      var seats := 100 - Sum(Floors(ws, total));
      0 <= seats <= |Positive(Remainders(ws, total))| <= |ws|
  {
    var total := Sum(ws);
    var fs, rs := Floors(ws, total), Remainders(ws, total);
    QuotasAddUp(ws, total);
    forall i | 0 <= i < |rs| ensures rs[i] < total { QuotaAt(ws, total, i); }
    FewPositive(rs, total);
    SeatsBound(total, Sum(fs), Sum(rs), |Positive(rs)|);
    PositiveBound(rs, |rs|);
  }

  lemma {:induction false} PositiveBound(rs: seq<nat>, n: nat)
    requires n <= |rs|
    ensures |set j: nat | j < n && rs[j] > 0| <= n
  {
    if n > 0 {
      PositiveBound(rs, n - 1);
      var s, t := set j: nat | j < n && rs[j] > 0, set j: nat | j < n - 1 && rs[j] > 0;
      if rs[n - 1] > 0 {
        assert s == t + {n - 1};
      } else {
        assert s == t;
      }
    }
  }

  // ----- who gets the seats that are left ----------------------------------

  /** Larger remainders first; among equal ones, earlier instances first. */
  predicate Before(rs: seq<nat>, j: nat, i: nat) {
    j < |rs| && i < |rs| && (rs[j] > rs[i] || (rs[j] == rs[i] && j < i))
  }

  function Ahead(rs: seq<nat>, i: nat): set<nat> {
    set j: nat | j < |rs| && Before(rs, j, i)
  }

  /** The independent definition: an instance gets its floor, and one seat more
      if fewer instances are ahead of it than there are seats left. */
  function Share(ws: seq<nat>, i: nat): nat
    requires Sum(ws) > 0 && i < |ws|
  {
    Floors(ws, Sum(ws))[i] + Extra(Remainders(ws, Sum(ws)), 100 - Sum(Floors(ws, Sum(ws))), i)
  }

  function Extra(rs: seq<nat>, seats: int, i: nat): nat { if |Ahead(rs, i)| < seats then 1 else 0 }

  lemma AheadGetsFirst(rs: seq<nat>, seats: int, i: nat, j: nat)
    requires Before(rs, i, j)
    ensures Extra(rs, seats, j) <= Extra(rs, seats, i)
  {
    assert Ahead(rs, i) + {i} <= Ahead(rs, j);
    Smaller(Ahead(rs, i) + {i}, Ahead(rs, j));
  }

  lemma {:induction false} Smaller(a: set<nat>, b: set<nat>)
    requires a <= b
    ensures |a| <= |b|
  {
    if a != {} {
      var x :| x in a;
      Smaller(a - {x}, b - {x});
    }
  }

  /** A whole-number quota gets no extra seat, and no one gets more than one. */
  lemma ShareIsFloorOrCeiling(ws: seq<nat>, i: nat)
    requires Sum(ws) > 0 && i < |ws|
    ensures ws[i] * 100 / Sum(ws) <= Share(ws, i) <= ws[i] * 100 / Sum(ws) + 1
    ensures ws[i] * 100 % Sum(ws) == 0 ==> Share(ws, i) == ws[i] * 100 / Sum(ws)
  {
    var rs := Remainders(ws, Sum(ws));
    QuotaAt(ws, Sum(ws), i);
    if rs[i] == 0 {
      SeatsLeft(ws);
      NoSeatForNothing(rs, 100 - Sum(Floors(ws, Sum(ws))), i);
    }
  }

  lemma NoSeatForNothing(rs: seq<nat>, seats: int, i: nat)
    requires seats <= |Positive(rs)| && i < |rs| && rs[i] == 0
    ensures Extra(rs, seats, i) == 0
  {
    assert Positive(rs) <= Ahead(rs, i);
    Smaller(Positive(rs), Ahead(rs, i));
  }

  lemma DivMonotone(a: nat, b: nat, n: nat)
    requires n > 0 && a <= b
    ensures a / n <= b / n
    ensures a < b && a / n == b / n ==> a % n < b % n
  {
    DivMod(a, n);
    DivMod(b, n);
    if a / n > b / n {
      StrictlyMore(a / n, b / n, n);
      assert false;
    }
  }

  lemma LargerQuota(a: nat, b: nat, total: nat, extraA: nat, extraB: nat)
    requires total > 0 && a > b && extraB <= 1
    requires a / total == b / total ==> extraB <= extraA
    ensures a / total + extraA >= b / total + extraB
  {
    DivMonotone(b, a, total);
  }

  /** A larger weight never gets a smaller share. */
  lemma LargerWeightLargerShare(ws: seq<nat>, i: nat, j: nat)
    requires Sum(ws) > 0 && i < |ws| && j < |ws| && ws[i] > ws[j]
    ensures Share(ws, i) >= Share(ws, j)
  {
    var total := Sum(ws);
    var rs, seats := Remainders(ws, total), 100 - Sum(Floors(ws, total));
    var a, b := ws[i] * 100, ws[j] * 100;
    QuotaAt(ws, total, i);
    QuotaAt(ws, total, j);
    if a / total == b / total {
      DivMonotone(b, a, total);
      AheadGetsFirst(rs, seats, i, j);
    }
    LargerQuota(a, b, total, Extra(rs, seats, i), Extra(rs, seats, j));
  }

  /** Equal weights differ by at most one, the earlier instance favoured. */
  lemma EqualWeightsNearlyEqualShares(ws: seq<nat>, i: nat, j: nat)
    requires Sum(ws) > 0 && i < j < |ws| && ws[i] == ws[j]
    ensures Share(ws, j) <= Share(ws, i) <= Share(ws, j) + 1
  {
    QuotaAt(ws, Sum(ws), i);
    QuotaAt(ws, Sum(ws), j);
    AheadGetsFirst(Remainders(ws, Sum(ws)), 100 - Sum(Floors(ws, Sum(ws))), i, j);
  }

  // ----- the sorted list of records ----------------------------------------

  function Range(lo: nat, n: nat): (s: seq<nat>)
    requires lo <= n
    ensures |s| == n - lo && forall k :: 0 <= k < n - lo ==> s[k] == lo + k
    decreases n - lo
  {
    if lo == n then [] else [lo] + Range(lo + 1, n)
  }

  function NegatedAt(rs: seq<nat>, i: nat): int { if i < |rs| then -(rs[i] as int) else 0 }

  function Negated(rs: seq<nat>): nat -> int { (i: nat) => NegatedAt(rs, i) }

  /** The positions of the records after `sorted(..., key=-remainder)`. */
  function Order(rs: seq<nat>): seq<nat> { SortByNumber(Negated(rs), Range(0, |rs|)) }

  ghost predicate InOrder(rs: seq<nat>, s: seq<nat>) {
    && (forall a :: 0 <= a < |s| ==> s[a] < |rs|)
    && (forall a, b :: 0 <= a < b < |s| ==> Before(rs, s[a], s[b]))
  }

  lemma ConsInOrder(rs: seq<nat>, x: nat, s: seq<nat>)
    requires x < |rs| && InOrder(rs, s) && forall y :: y in s ==> Before(rs, x, y)
    ensures InOrder(rs, [x] + s)
  {
    var r := [x] + s;
    forall a, b | 0 <= a < b < |r| ensures Before(rs, r[a], r[b]) {
      assert r[b] == s[b - 1] && s[b - 1] in s;
    }
  }

  lemma {:induction false} InsertInOrder(rs: seq<nat>, x: nat, s: seq<nat>)
    requires x < |rs| && InOrder(rs, s) && forall y :: y in s ==> x < y
    ensures InOrder(rs, InsertByNumber(Negated(rs), x, s))
  {
    if s == [] {
    } else if NegatedAt(rs, x) <= NegatedAt(rs, s[0]) {
      forall y | y in s ensures Before(rs, x, y) {
        var b :| 0 <= b < |s| && s[b] == y;
        assert b > 0 ==> Before(rs, s[0], s[b]);
      }
      ConsInOrder(rs, x, s);
    } else {
      var rest := InsertByNumber(Negated(rs), x, s[1..]);
      assert forall y :: y in s[1..] ==> y in s;
      InsertInOrder(rs, x, s[1..]);
      InsertByNumberCount(Negated(rs), x, s[1..]);
      forall y | y in rest ensures Before(rs, s[0], y) {
        assert y in multiset(rest);
        if y != x {
          assert y in multiset(s[1..]);
          var b :| 0 <= b < |s[1..]| && s[1..][b] == y;
          assert Before(rs, s[0], s[b + 1]);
        }
      }
      ConsInOrder(rs, s[0], rest);
    }
  }

  lemma SortedRange(rs: seq<nat>, lo: nat)
    requires lo <= |rs|
    ensures var s := SortByNumber(Negated(rs), Range(lo, |rs|));
      |s| == |rs| - lo && forall x :: x in s <==> lo <= x < |rs|
  {
    var r := Range(lo, |rs|);
    var s := SortByNumber(Negated(rs), r);
    SortByNumberMembers(Negated(rs), r);
    SortByNumberCount(Negated(rs), r);
    assert |s| == |multiset(s)| == |multiset(r)|;
    forall x | lo <= x < |rs| ensures x in r {
      assert r[x - lo] == x;
    }
  }

  lemma {:induction false} SortInOrder(rs: seq<nat>, lo: nat)
    requires lo <= |rs|
    ensures InOrder(rs, SortByNumber(Negated(rs), Range(lo, |rs|)))
    decreases |rs| - lo
  {
    if lo < |rs| {
      SortInOrder(rs, lo + 1);
      SortedRange(rs, lo + 1);
      assert Range(lo, |rs|)[1..] == Range(lo + 1, |rs|);
      var t := SortByNumber(Negated(rs), Range(lo + 1, |rs|));
      InsertInOrder(rs, lo, t);
    }
  }

  /** The first `k` positions of the sorted list, as a set. */
  function FirstOf(s: seq<nat>, k: nat): set<nat>
    requires k <= |s|
  {
    set a | 0 <= a < k :: s[a]
  }

  lemma {:induction false} FirstOfSize(s: seq<nat>, k: nat)
    requires k <= |s| && forall a, b :: 0 <= a < b < |s| ==> s[a] != s[b]
    ensures |FirstOf(s, k)| == k
  {
    if k > 0 {
      FirstOfSize(s, k - 1);
      assert FirstOf(s, k) == FirstOf(s, k - 1) + {s[k - 1]};
    }
  }

  /** Position `k` of the sorted list has exactly `k` records ahead of it. */
  lemma PositionIsRank(rs: seq<nat>, k: nat)
    requires k < |Order(rs)|
    ensures |Order(rs)| == |rs| && Order(rs)[k] < |rs| && |Ahead(rs, Order(rs)[k])| == k
  {
    SortInOrder(rs, 0);
    SortedRange(rs, 0);
    var s := Order(rs);
    assert Ahead(rs, s[k]) == FirstOf(s, k) by {
      forall j: nat | j < |rs| ensures Before(rs, j, s[k]) <==> j in FirstOf(s, k) {
        assert j in s;
        var a :| 0 <= a < |s| && s[a] == j;
        if a < k {
          assert Before(rs, s[a], s[k]);
        } else if a > k {
          assert Before(rs, s[k], s[a]);
        }
      }
    }
    FirstOfSize(s, k);
  }

  /** One seat more for each of the first `k` positions. */
  function Award(fs: seq<nat>, order: seq<nat>, k: nat): (r: seq<nat>)
    requires k <= |order| && forall a :: 0 <= a < |order| ==> order[a] < |fs|
    ensures |r| == |fs|
  {
    if k == 0 then fs
    else var r := Award(fs, order, k - 1); r[order[k - 1] := r[order[k - 1]] + 1]
  }

  lemma {:induction false} AwardSum(fs: seq<nat>, order: seq<nat>, k: nat)
    requires k <= |order| && forall a :: 0 <= a < |order| ==> order[a] < |fs|
    ensures Sum(Award(fs, order, k)) == Sum(fs) + k
  {
    if k > 0 {
      AwardSum(fs, order, k - 1);
      var r := Award(fs, order, k - 1);
      SumUpdate(r, order[k - 1], r[order[k - 1]] + 1);
    }
  }

  lemma {:induction false} AwardAt(fs: seq<nat>, order: seq<nat>, k: nat, p: nat)
    requires k <= |order| && p < |order| && forall a :: 0 <= a < |order| ==> order[a] < |fs|
    requires forall a, b :: 0 <= a < b < |order| ==> order[a] != order[b]
    ensures Award(fs, order, k)[order[p]] == fs[order[p]] + if p < k then 1 else 0
  {
    if k > 0 {
      AwardAt(fs, order, k - 1, p);
    }
  }

  /** Largest remainders, as the code computes it. */
  function LargestRemainders(ws: seq<nat>): (r: seq<nat>)
    requires Sum(ws) > 0
  {
    var total := Sum(ws);
    var fs, rs := Floors(ws, total), Remainders(ws, total);
    SeatsLeft(ws);
    SortInOrder(rs, 0);
    SortedRange(rs, 0);
    Award(fs, Order(rs), 100 - Sum(fs))
  }

  lemma AwardedIsExtra(fs: seq<nat>, rs: seq<nat>, seats: nat, i: nat)
    requires |fs| == |rs| && seats <= |rs| && i < |rs|
    ensures |Order(rs)| == |rs| && InOrder(rs, Order(rs))
    ensures Award(fs, Order(rs), seats)[i] == fs[i] + Extra(rs, seats, i)
  {
    var order := Order(rs);
    SortInOrder(rs, 0);
    SortedRange(rs, 0);
    assert i in order;
    var p :| 0 <= p < |order| && order[p] == i;
    AwardAt(fs, order, seats, p);
    PositionIsRank(rs, p);
  }

  /** What the code computes is the independent definition, and adds up to
      exactly 100. The seat loop stays inside the list. */
  lemma LargestRemaindersIsShare(ws: seq<nat>)
    requires Sum(ws) > 0
    ensures |LargestRemainders(ws)| == |ws| && Sum(LargestRemainders(ws)) == 100
    ensures forall i :: 0 <= i < |ws| ==> LargestRemainders(ws)[i] == Share(ws, i)
  {
    var fs, rs := Floors(ws, Sum(ws)), Remainders(ws, Sum(ws));
    var seats := 100 - Sum(fs);
    SeatsLeft(ws);
    SortInOrder(rs, 0);
    SortedRange(rs, 0);
    AwardSum(fs, Order(rs), seats);
    forall i | 0 <= i < |ws| ensures Award(fs, Order(rs), seats)[i] == Share(ws, i) {
      AwardedIsExtra(fs, rs, seats, i);
    }
  }
}
