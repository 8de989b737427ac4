/** From weighted targets to percentages per instance: scaling by the least
    common multiple of the instance counts, then largest remainders
    (gpustack/gateway/utils.py:931-978). */
module Weights {
  import opened Apportionment
  import opened Arithmetic

  /** A route target: its weight and the number of its instances. */
  datatype Target = Target(weight: nat, count: int)

  // ----- scaling -----------------------------------------------------------

  predicate AllPositive(counts: seq<int>) { forall c :: c in counts ==> c > 0 }

  predicate CommonMultiple(m: nat, counts: seq<int>)
    requires AllPositive(counts)
  {
    forall c :: c in counts ==> m % c == 0
  }

  lemma MultipleMod(q: nat, d: nat)
    requires d > 0
    ensures q * d % d == 0
  {
    DivMod(q * d, d);
    if q * d / d > q {
      StrictlyMore(q * d / d, q, d);
      assert false;
    } else if q * d / d < q {
      StrictlyMore(q, q * d / d, d);
      assert false;
    }
  }

  function Product(counts: seq<int>): (p: nat)
    requires AllPositive(counts)
    ensures p > 0 && CommonMultiple(p, counts)
  {
    if counts == [] then 1 else
    assert counts[0] in counts;
    assert forall c :: c in counts[1..] ==> c in counts;
    var rest := Product(counts[1..]);
    ProductMultiple(counts, rest);
    counts[0] * rest
  }

  lemma ProductMultiple(counts: seq<int>, rest: nat)
    requires counts != [] && AllPositive(counts) && AllPositive(counts[1..]) && rest > 0
    requires CommonMultiple(rest, counts[1..])
    ensures counts[0] > 0 && counts[0] * rest > 0 && CommonMultiple(counts[0] * rest, counts)
  {
    var h := counts[0];
    assert h in counts;
    assert h * rest > 0;
    forall c | c in counts ensures h * rest % c == 0 {
      if c == h {
        MultipleMod(rest, h);
        assert h * rest == rest * h;
      } else {
        assert c in counts[1..];
        DivMod(rest, c);
        MultipleMod(h * (rest / c), c);
        assert h * rest == h * (rest / c) * c;
      }
    }
  }

  /** `math.lcm`: the first common multiple from `m` up. */
  function LeastFrom(counts: seq<int>, m: nat): (r: nat)
    requires AllPositive(counts) && 0 < m <= Product(counts)
    ensures m <= r && CommonMultiple(r, counts)
    ensures forall x: nat :: m <= x < r ==> !CommonMultiple(x, counts)
    decreases Product(counts) - m
  {
    if CommonMultiple(m, counts) then m else LeastFrom(counts, m + 1)
  }

  function Counts(targets: seq<Target>): (cs: seq<int>)
    ensures AllPositive(cs)
    ensures forall t :: t in targets && t.count > 0 ==> t.count in cs
  {
    if targets == [] then []
    else if targets[0].count > 0 then [targets[0].count] + Counts(targets[1..])
    else Counts(targets[1..])
  }

  function Scaled(t: Target, lcm: nat): Target {
    t.(weight := if t.count > 0 then t.weight * lcm / t.count else 0)
  }

  function ScaleBy(targets: seq<Target>, lcm: nat): (r: seq<Target>)
    ensures |r| == |targets| && forall i :: 0 <= i < |r| ==> r[i] == Scaled(targets[i], lcm)
  {
    if targets == [] then [] else [Scaled(targets[0], lcm)] + ScaleBy(targets[1..], lcm)
  }

  /** `scale_weight`: unchanged when no target has an instance. */
  function ScaleWeight(targets: seq<Target>): seq<Target> {
    var counts := Counts(targets);
    if counts == [] then targets else ScaleBy(targets, LeastFrom(counts, 1))
  }

  /** The division is exact: per target, count times the scaled weight is the
      weight times the multiple, so the groups keep their proportions. */
  lemma ScalingIsExact(t: Target, lcm: nat)
    requires t.count > 0 && lcm % t.count == 0
    ensures t.count * Scaled(t, lcm).weight == t.weight * lcm
  {
    DivMod(lcm, t.count);
    var q := lcm / t.count;
    MultipleMod(t.weight * q, t.count);
    assert t.weight * lcm == t.weight * q * t.count;
    DivMod(t.weight * lcm, t.count);
  }

  // ----- one weight per instance -------------------------------------------

  function Repeat(w: nat, n: int): (r: seq<nat>)
    ensures |r| == (if n > 0 then n else 0) && forall i :: 0 <= i < |r| ==> r[i] == w
    decreases if n > 0 then n else 0
  {
    if n <= 0 then [] else [w] + Repeat(w, n - 1)
  }

  /** The weights of the instances, floored at `least`. */
  function Expand(targets: seq<Target>, least: nat): seq<nat> {
    if targets == [] then []
    else Repeat(if targets[0].weight > least then targets[0].weight else least, targets[0].count)
           + Expand(targets[1..], least)
  }

  /** `hamilton_calculate_weight`: nothing when there is nothing to share. */
  function Percentages(targets: seq<Target>, least: nat): seq<nat> {
    var ws := Expand(ScaleWeight(targets), least);
    if Sum(ws) == 0 then [] else LargestRemainders(ws)
  }

  /** The instances of target `g` are those from here on. */
  function Offset(targets: seq<Target>, g: nat): nat
    requires g <= |targets|
  {
    if g == 0 then 0
    else (if targets[0].count > 0 then targets[0].count else 0) + Offset(targets[1..], g - 1)
  }

  lemma {:induction false} Segment(targets: seq<Target>, least: nat, g: nat)
    requires g < |targets| && targets[g].count > 0
    ensures var ws, off := Expand(targets, least), Offset(targets, g);
      && off + targets[g].count <= |ws|
      && forall i :: off <= i < off + targets[g].count ==>
           ws[i] == if targets[g].weight > least then targets[g].weight else least
  {
    if g > 0 {
      Segment(targets[1..], least, g - 1);
    }
  }

  /** The weights of the targets that have instances. */
  function LiveWeight(targets: seq<Target>): nat {
    if targets == [] then 0
    else LiveWeightOf(targets[0]) + LiveWeight(targets[1..])
  }

  lemma {:induction false} SumRepeat(w: nat, n: int)
    ensures Sum(Repeat(w, n)) == if n > 0 then n * w else 0
    decreases if n > 0 then n else 0
  {
    if n > 0 {
      SumRepeat(w, n - 1);
      assert Repeat(w, n)[1..] == Repeat(w, n - 1);
      if n == 1 {
        assert Repeat(w, 0) == [];
      }
      assert n * w == (n - 1) * w + w;
    }
  }

  function LiveWeightOf(t: Target): nat { if t.count > 0 then t.weight else 0 }

  lemma OwnWeight(t: Target, lcm: nat)
    requires t.count > 0 ==> lcm % t.count == 0
    ensures Sum(Repeat(Scaled(t, lcm).weight, t.count)) == LiveWeightOf(t) * lcm
  {
    SumRepeat(Scaled(t, lcm).weight, t.count);
    if t.count > 0 {
      ScalingIsExact(t, lcm);
    }
  }

  lemma ExpandScaled(targets: seq<Target>, lcm: nat)
    requires targets != []
    ensures Expand(ScaleBy(targets, lcm), 0) ==
      Repeat(Scaled(targets[0], lcm).weight, targets[0].count) + Expand(ScaleBy(targets[1..], lcm), 0)
  {
    assert ScaleBy(targets, lcm)[1..] == ScaleBy(targets[1..], lcm);
  }

  /** All the instances together weigh the multiple times the live targets. */
  lemma {:induction false} TotalWeight(targets: seq<Target>, lcm: nat)
    requires forall t :: t in targets && t.count > 0 ==> lcm % t.count == 0
    ensures Sum(Expand(ScaleBy(targets, lcm), 0)) == LiveWeight(targets) * lcm
  {
    if targets != [] {
      var t, rest := targets[0], targets[1..];
      assert t in targets && forall u :: u in rest ==> u in targets;
      TotalWeight(rest, lcm);
      OwnWeight(t, lcm);
      var own, others := Repeat(Scaled(t, lcm).weight, t.count), Expand(ScaleBy(rest, lcm), 0);
      SumConcat(own, others);
      ExpandScaled(targets, lcm);
      Distribute(LiveWeightOf(t), LiveWeight(rest), lcm);
    }
  }

  /** Less than one off the quota, both sides multiplied by the total. */
  predicate Near(share: nat, quota: nat, total: nat) {
    quota < share * total + total && share * total < quota + total
  }

  /** Percentages that are each off their quota by less than one add up to a
      total that is off by less than their number. */
  lemma {:induction false} NearTotal(rs: seq<nat>, quota: nat, total: nat)
    requires total > 0 && rs != []
    requires forall i :: 0 <= i < |rs| ==> Near(rs[i], quota, total)
    ensures |rs| * quota < Sum(rs) * total + |rs| * total
    ensures Sum(rs) * total < |rs| * quota + |rs| * total
  {
    var rest := rs[1..];
    assert Near(rs[0], quota, total);
    Distribute(rs[0], Sum(rest), total);
    Distribute(1, |rest|, total);
    Distribute(1, |rest|, quota);
    if rest != [] {
      assert forall i :: 0 <= i < |rest| ==> rest[i] == rs[i + 1];
      NearTotal(rest, quota, total);
    } else {
      assert Sum(rs) == rs[0];
    }
  }

  lemma NearQuota(a: nat, total: nat, share: nat)
    requires total > 0 && a / total <= share <= a / total + 1
    requires a % total == 0 ==> share == a / total
    ensures Near(share, a, total)
  {
    DivMod(a, total);
    if share == a / total {
    } else {
      Distribute(a / total, 1, total);
    }
  }

  lemma SharesNear(ws: seq<nat>)
    requires Sum(ws) > 0
    ensures |LargestRemainders(ws)| == |ws|
    ensures forall i :: 0 <= i < |ws| ==> Near(LargestRemainders(ws)[i], ws[i] * 100, Sum(ws))
  {
    LargestRemaindersIsShare(ws);
    forall i | 0 <= i < |ws| ensures Near(LargestRemainders(ws)[i], ws[i] * 100, Sum(ws)) {
      ShareIsFloorOrCeiling(ws, i);
      NearQuota(ws[i] * 100, Sum(ws), Share(ws, i));
    }
  }

  lemma CancelFactor(a: int, b: int, n: nat)
    requires n > 0 && a * n < b * n
    ensures a < b
  {
    if a > b {
      StrictlyMore(a, b, n);
      assert false;
    }
  }

  /** What target `g` gets in all. */
  function GroupTotal(targets: seq<Target>, g: nat): nat
    requires g < |targets| && targets[g].count > 0
    requires Offset(targets, g) + targets[g].count <= |Percentages(targets, 0)|
  {
    Sum(Percentages(targets, 0)[Offset(targets, g)..Offset(targets, g) + targets[g].count])
  }

  lemma {:induction false} OffsetUnscaled(targets: seq<Target>, lcm: nat, g: nat)
    requires g <= |targets|
    ensures Offset(ScaleBy(targets, lcm), g) == Offset(targets, g)
  {
    if g > 0 {
      OffsetUnscaled(targets[1..], lcm, g - 1);
      assert ScaleBy(targets, lcm)[1..] == ScaleBy(targets[1..], lcm);
    }
  }

  lemma PercentagesNear(targets: seq<Target>, lcm: nat)
    requires Counts(targets) != [] && lcm == LeastFrom(Counts(targets), 1) && LiveWeight(targets) * lcm > 0
    ensures var ws := Expand(ScaleBy(targets, lcm), 0);
      && |Percentages(targets, 0)| == |ws|
      && forall i :: 0 <= i < |ws| ==> Near(Percentages(targets, 0)[i], ws[i] * 100, LiveWeight(targets) * lcm)
  {
    TotalWeight(targets, lcm);
    SharesNear(Expand(ScaleBy(targets, lcm), 0));
  }

  /** The percentages of a target with instances: a segment of the list, each
      less than one off its quota. */
  lemma GroupSegment(targets: seq<Target>, g: nat, lcm: nat, total: nat) returns (seg: seq<nat>)
    requires g < |targets| && targets[g].count > 0
    requires Counts(targets) != [] && lcm == LeastFrom(Counts(targets), 1)
    requires total == LiveWeight(targets) * lcm && total > 0
    ensures Offset(targets, g) + targets[g].count <= |Percentages(targets, 0)|
    ensures |seg| == targets[g].count && GroupTotal(targets, g) == Sum(seg)
    ensures forall i :: 0 <= i < |seg| ==> Near(seg[i], Scaled(targets[g], lcm).weight * 100, total)
  {
    var off, ws := Offset(targets, g), Expand(ScaleBy(targets, lcm), 0);
    PercentagesNear(targets, lcm);
    OffsetUnscaled(targets, lcm, g);
    Segment(ScaleBy(targets, lcm), 0, g);
    seg := Percentages(targets, 0)[off..off + targets[g].count];
    NearSlice(Percentages(targets, 0), seg, ws, off, targets[g].count, Scaled(targets[g], lcm).weight, total);
  }

  lemma NearSlice(ps: seq<nat>, seg: seq<nat>, ws: seq<nat>, off: nat, n: nat, w: nat, total: nat)
    requires |ps| == |ws| && off + n <= |ws| && seg == ps[off..off + n]
    requires forall i :: 0 <= i < |ws| ==> Near(ps[i], ws[i] * 100, total)
    requires forall i :: off <= i < off + n ==> ws[i] == w
    ensures forall i :: 0 <= i < |seg| ==> Near(seg[i], w * 100, total)
  {
    forall i | 0 <= i < |seg| ensures Near(seg[i], w * 100, total) {
      assert Near(ps[off + i], ws[off + i] * 100, total);
    }
  }

  /** `sum` times `total` is off `n` quotas by less than `n` totals. */
  predicate Within(n: nat, quota: nat, sum: nat, total: nat) {
    n * quota < sum * total + n * total && sum * total < n * quota + n * total
  }

  lemma GroupWithin(targets: seq<Target>, g: nat, lcm: nat, total: nat)
    requires g < |targets| && targets[g].count > 0
    requires Counts(targets) != [] && lcm == LeastFrom(Counts(targets), 1)
    requires total == LiveWeight(targets) * lcm && total > 0
    ensures Offset(targets, g) + targets[g].count <= |Percentages(targets, 0)|
    ensures Within(targets[g].count, Scaled(targets[g], lcm).weight * 100, GroupTotal(targets, g), total)
  {
    var seg := GroupSegment(targets, g, lcm, total);
    NearTotal(seg, Scaled(targets[g], lcm).weight * 100, total);
  }

  /** Proportionality: what a target's instances get together is less than the
      number of its instances away from 100 times its share of the weight. */
  lemma GroupsAreProportional(targets: seq<Target>, g: nat)
    requires g < |targets| && targets[g].count > 0 && LiveWeight(targets) > 0
    ensures Offset(targets, g) + targets[g].count <= |Percentages(targets, 0)|
    ensures var live, n := LiveWeight(targets), targets[g].count;
      && GroupTotal(targets, g) * live < 100 * targets[g].weight + n * live
      && 100 * targets[g].weight < GroupTotal(targets, g) * live + n * live
  {
    var t, live := targets[g], LiveWeight(targets);
    assert t in targets && t.count in Counts(targets);
    var lcm := LeastFrom(Counts(targets), 1);
    StrictlyMore(live, 0, lcm);
    GroupWithin(targets, g, lcm, live * lcm);
    ScalingIsExact(t, lcm);
    GroupArithmetic(GroupTotal(targets, g), live, lcm, t.count, Scaled(t, lcm).weight, t.weight);
  }

  lemma GroupArithmetic(sum: nat, live: nat, lcm: nat, n: nat, w: nat, weight: nat)
    requires lcm > 0 && n * w == weight * lcm && Within(n, w * 100, sum, live * lcm)
    ensures sum * live < 100 * weight + n * live && 100 * weight < sum * live + n * live
  {
    assert n * (w * 100) == (100 * weight) * lcm;
    assert sum * (live * lcm) == (sum * live) * lcm;
    assert n * (live * lcm) == (n * live) * lcm;
    Distribute(sum * live, n * live, lcm);
    Distribute(100 * weight, n * live, lcm);
    CancelFactor(sum * live, 100 * weight + n * live, lcm);
    CancelFactor(100 * weight, sum * live + n * live, lcm);
  }

  /** The list has one entry per instance and sums to exactly 100, or is empty
      when no instance has any weight. */
  lemma PercentagesSum(targets: seq<Target>, least: nat)
    ensures var ws := Expand(ScaleWeight(targets), least);
      if Sum(ws) == 0 then Percentages(targets, least) == []
      else |Percentages(targets, least)| == |ws| == Offset(targets, |targets|) && Sum(Percentages(targets, least)) == 100
  {
    var scaled := ScaleWeight(targets);
    var ws := Expand(scaled, least);
    if Sum(ws) != 0 {
      LargestRemaindersIsShare(ws);
      if Counts(targets) != [] {
        OffsetUnscaled(targets, LeastFrom(Counts(targets), 1), |targets|);
      }
      ExpandLength(scaled, least);
    }
  }

  lemma {:induction false} ExpandLength(targets: seq<Target>, least: nat)
    ensures |Expand(targets, least)| == Offset(targets, |targets|)
  {
    if targets != [] {
      ExpandLength(targets[1..], least);
    }
  }

  /** The weight of one instance of a target: the target's, spread over its
      instances, and at least the floor. */
  function PerInstance(t: Target, lcm: nat, least: nat): nat
    requires t.count > 0
  {
    var w := t.weight * lcm / t.count;
    if w < least then least else w
  }

  function FlooredTotal(targets: seq<Target>, lcm: nat, least: nat): nat {
    if targets == [] then 0
    else (if targets[0].count > 0 then targets[0].count * PerInstance(targets[0], lcm, least) else 0)
           + FlooredTotal(targets[1..], lcm, least)
  }

  lemma {:induction false} FlooredSum(targets: seq<Target>, lcm: nat, least: nat)
    ensures Sum(Expand(ScaleBy(targets, lcm), least)) == FlooredTotal(targets, lcm, least)
  {
    if targets != [] {
      var t, scaled := targets[0], ScaleBy(targets, lcm);
      FlooredSum(targets[1..], lcm, least);
      assert scaled[1..] == ScaleBy(targets[1..], lcm);
      var w := if scaled[0].weight > least then scaled[0].weight else least;
      SumConcat(Repeat(w, t.count), Expand(scaled[1..], least));
      SumRepeat(w, t.count);
    }
  }

  /** Every instance's percentage, for any floor: the floor or the ceiling of 100
      times its weight over the total, and exactly that if it is whole. */
  lemma EveryPercentage(targets: seq<Target>, least: nat, g: nat, k: nat)
    requires g < |targets| && k < targets[g].count
    ensures Counts(targets) != []
    ensures var lcm := LeastFrom(Counts(targets), 1);
      var weight, total := PerInstance(targets[g], lcm, least), FlooredTotal(targets, lcm, least);
      total > 0 ==>
        && Offset(targets, g) + k < |Percentages(targets, least)|
        && var p := Percentages(targets, least)[Offset(targets, g) + k];
           && weight * 100 / total <= p <= weight * 100 / total + 1
           && (weight * 100 % total == 0 ==> p == weight * 100 / total)
  {
    assert targets[g] in targets && targets[g].count in Counts(targets);
    var lcm := LeastFrom(Counts(targets), 1);
    var scaled := ScaleBy(targets, lcm);
    var ws := Expand(scaled, least);
    FlooredSum(targets, lcm, least);
    Segment(scaled, least, g);
    OffsetUnscaled(targets, lcm, g);
    if Sum(ws) > 0 {
      LargestRemaindersIsShare(ws);
      ShareIsFloorOrCeiling(ws, Offset(targets, g) + k);
    }
  }

  lemma {:induction false} ZeroTotalIff(targets: seq<Target>, lcm: nat, least: nat)
    requires lcm > 0 && forall t :: t in targets && t.count > 0 ==> lcm % t.count == 0
    ensures FlooredTotal(targets, lcm, least) == 0 <==> forall t :: t in targets && t.count > 0 ==> t.weight == 0 && least == 0
  {
    if targets != [] {
      var t, rest := targets[0], targets[1..];
      assert t in targets && forall u :: u in targets <==> u == t || u in rest;
      ZeroTotalIff(rest, lcm, least);
      if t.count > 0 {
        ScalingIsExact(t, lcm);
        ZeroInstance(t.count, t.weight, lcm, Scaled(t, lcm).weight, PerInstance(t, lcm, least), least);
      }
    }
  }

  lemma ZeroInstance(count: nat, weight: nat, lcm: nat, scaled: nat, w: nat, least: nat)
    requires count > 0 && lcm > 0 && count * scaled == weight * lcm && w == if scaled < least then least else scaled
    ensures count * w == 0 <==> weight == 0 && least == 0
  {
    if weight > 0 {
      StrictlyMore(weight, 0, lcm);
    }
    assert scaled == 0 ==> count * scaled == 0;
    if w > 0 {
      StrictlyMore(w, 0, count);
      assert w * count == count * w;
    }
  }

  /** Nothing is returned exactly if no instance has any weight, that is, every
      target with instances has weight zero and there is no floor. */
  lemma NothingIff(targets: seq<Target>, least: nat)
    ensures Percentages(targets, least) == [] <==> forall t :: t in targets && t.count > 0 ==> t.weight == 0 && least == 0
  {
    var ws := Expand(ScaleWeight(targets), least);
    if Sum(ws) > 0 {
      LargestRemaindersIsShare(ws);
    }
    if Counts(targets) == [] {
      ExpandNone(targets, least);
    } else {
      var lcm := LeastFrom(Counts(targets), 1);
      FlooredSum(targets, lcm, least);
      ZeroTotalIff(targets, lcm, least);
    }
  }

  lemma {:induction false} ExpandNone(targets: seq<Target>, least: nat)
    requires Counts(targets) == []
    ensures Expand(targets, least) == [] && forall t :: t in targets ==> t.count <= 0
  {
    if targets != [] {
      ExpandNone(targets[1..], least);
      assert targets == [targets[0]] + targets[1..];
    }
  }

  // ----- the records -------------------------------------------------------

  class InstanceInfo {
    var weight: nat
    var floorQuota: nat
    var remainder: nat

    constructor (weight: nat)
      ensures this.weight == weight
    {
      this.weight := weight;
    }
  }

  ghost predicate Distinct(infos: seq<InstanceInfo>) {
    forall i, j :: 0 <= i < j < |infos| ==> infos[i] != infos[j]
  }

  method CreateInfos(weights: seq<nat>) returns (infos: seq<InstanceInfo>)
    ensures |infos| == |weights| && Distinct(infos)
    ensures forall i :: 0 <= i < |infos| ==> fresh(infos[i]) && infos[i].weight == weights[i]
  {
    infos := [];
    for i := 0 to |weights|
      invariant |infos| == i && Distinct(infos)
      invariant forall j :: 0 <= j < i ==> fresh(infos[j]) && infos[j].weight == weights[j]
    {
      var info := new InstanceInfo(weights[i]);
      infos := infos + [info];
    }
  }

  /** Each record's quota, split into its floor and its remainder. */
  method SetQuotas(infos: seq<InstanceInfo>, total: nat, ghost ws: seq<nat>)
    requires total > 0 && Distinct(infos) && |ws| == |infos|
    requires forall i :: 0 <= i < |infos| ==> infos[i].weight == ws[i]
    modifies infos
    ensures forall i :: 0 <= i < |infos| ==> infos[i].weight == ws[i]
    ensures forall i :: 0 <= i < |infos| ==> infos[i].floorQuota == Floors(ws, total)[i]
    ensures forall i :: 0 <= i < |infos| ==> infos[i].remainder == Remainders(ws, total)[i]
  {
    for i := 0 to |infos|
      invariant forall j :: 0 <= j < |infos| ==> infos[j].weight == ws[j]
      invariant forall j :: 0 <= j < i ==> infos[j].floorQuota == Floors(ws, total)[j]
      invariant forall j :: 0 <= j < i ==> infos[j].remainder == Remainders(ws, total)[j]
    {
      var quota := infos[i].weight * 100;
      QuotaAt(ws, total, i);
      infos[i].floorQuota, infos[i].remainder := quota / total, quota % total;
    }
  }

  /** One seat more for each of the first records of the sorted list; the
      records are the ones of the unsorted list. */
  method AwardSeats(infos: seq<InstanceInfo>, sorted: seq<InstanceInfo>, seats: nat, ghost order: seq<nat>,
                    ghost floors: seq<nat>)
    requires Distinct(infos) && seats <= |sorted| == |order| && |floors| == |infos|
    requires forall a :: 0 <= a < |order| ==> order[a] < |infos| && sorted[a] == infos[order[a]]
    requires forall i :: 0 <= i < |infos| ==> infos[i].floorQuota == floors[i]
    modifies infos
    ensures forall i :: 0 <= i < |infos| ==> infos[i].floorQuota == Award(floors, order, seats)[i]
  {
    for k := 0 to seats
      invariant forall i :: 0 <= i < |infos| ==> infos[i].floorQuota == Award(floors, order, k)[i]
    {
      var info := sorted[k];
      assert info == infos[order[k]];
      info.floorQuota := info.floorQuota + 1;
    }
  }

  method SortRecords(infos: seq<InstanceInfo>, ghost rs: seq<nat>) returns (sorted: seq<InstanceInfo>)
    requires |rs| == |infos| && forall i :: 0 <= i < |infos| ==> infos[i].remainder == rs[i]
    ensures |sorted| == |Order(rs)| == |infos|
    ensures forall a :: 0 <= a < |sorted| ==> Order(rs)[a] < |infos| && sorted[a] == infos[Order(rs)[a]]
  {
    var remainders: seq<nat> := [];
    for i := 0 to |infos|
      invariant remainders == rs[..i]
    {
      remainders := remainders + [infos[i].remainder];
    }
    assert remainders == rs;
    SortInOrder(rs, 0);
    SortedRange(rs, 0);
    var order := Order(remainders);
    sorted := [];
    for a := 0 to |order|
      invariant |sorted| == a && forall b :: 0 <= b < a ==> sorted[b] == infos[order[b]]
    {
      sorted := sorted + [infos[order[a]]];
    }
  }

  method ReadFloors(infos: seq<InstanceInfo>, ghost fs: seq<nat>) returns (floors: seq<nat>)
    requires |fs| == |infos| && forall i :: 0 <= i < |infos| ==> infos[i].floorQuota == fs[i]
    ensures floors == fs
  {
    floors := [];
    for i := 0 to |infos|
      invariant floors == fs[..i]
    {
      floors := floors + [infos[i].floorQuota];
    }
  }

  /** The records again in a second list, sorted by remainder, and the seats
      handed out through it. */
  method HandOut(infos: seq<InstanceInfo>, seats: nat, ghost fs: seq<nat>, ghost rs: seq<nat>) returns (percentages: seq<nat>)
    requires Distinct(infos) && |fs| == |rs| == |infos| && seats <= |infos|
    requires forall i :: 0 <= i < |infos| ==> infos[i].floorQuota == fs[i] && infos[i].remainder == rs[i]
    requires |Order(rs)| == |rs| && InOrder(rs, Order(rs))
    modifies infos
    ensures percentages == Award(fs, Order(rs), seats)
  {
    var sorted := SortRecords(infos, rs);
    AwardSeats(infos, sorted, seats, Order(rs), fs);
    percentages := ReadFloors(infos, Award(fs, Order(rs), seats));
  }

  /** One record per instance with its quota, then the seats that are left. */
  method Apportion(ws: seq<nat>) returns (percentages: seq<nat>)
    requires Sum(ws) > 0
    ensures percentages == LargestRemainders(ws)
  {
    var total := Sum(ws);
    var infos := CreateInfos(ws);
    SetQuotas(infos, total, ws);
    var floors := ReadFloors(infos, Floors(ws, total));
    SeatsLeft(ws);
    SortInOrder(Remainders(ws, total), 0);
    SortedRange(Remainders(ws, total), 0);
    percentages := HandOut(infos, 100 - Sum(floors), floors, Remainders(ws, total));
  }

  /** `hamilton_calculate_weight`. */
  method HamiltonCalculateWeight(targets: seq<Target>, least: nat) returns (percentages: seq<nat>)
    ensures percentages == Percentages(targets, least)
  {
    var ws := Expand(ScaleWeight(targets), least);
    if Sum(ws) == 0 {
      return [];
    }
    percentages := Apportion(ws);
  }
}
