/**
 * The spell classifier of the wand: a pure, total function from the
 * lateral and vertical sample windows of one capture episode to a spell.
 *
 * For each direction it scores a pair (strong count, peak): the number of
 * samples at or beyond THRESHOLD in that direction, and the magnitude of
 * the axis maximum (Up, Left) or minimum (Down, Right), 0 for an empty
 * window. The count winner is returned when its count is positive,
 * otherwise the peak winner when its peak exceeds 10, otherwise Other.
 *
 * Both winners are first maxima in the order in which the candidate table
 * is visited. The source builds that table as a dict literal and reads it
 * with a keyed `max`, so the order is the dict's iteration order. The
 * classifier is defined for any visiting order; DetermineSpell uses the
 * order of the device's MicroPython dict.
 */
module Classifier {
  import opened Spells

  /** The saturation-adjacent magnitude on the sensor's native scale. */
  const THRESHOLD: int := 32764

  /** The largest peak that still counts as no motion at all. */
  const QUIET_PEAK: int := 10

  /**
   * The order in which the dict literal inserts its keys, which is the
   * order a dict that preserves insertion order (CPython 3.7 and later) visits.
   */
  const InsertionOrder: seq<Spell> := [Up, Down, Left, Right]

  /**
   * The order MicroPython visits the same dict. A 4-entry literal gets a
   * 4-slot open-addressing table that is iterated slot by slot, and the
   * labels' string hashes (djb2 with xor) modulo 4 are up 0, right 1,
   * left 2, down 3, so no two keys collide.
   */
  const DeviceOrder: seq<Spell> := [Up, Right, Left, Down]

  /** A visiting order for the candidate table: each direction exactly once. */
  ghost predicate IsVisitOrder(order: seq<Spell>)
  {
    |order| == 4 &&
    (forall d :: d in order <==> d != Other) &&
    (forall k :: 0 <= k < |order| ==> order[k] != Other) &&
    (forall j, k :: 0 <= j < k < |order| ==> order[j] != order[k])
  }

  /** The position of a direction in a visiting order. */
  function Position(order: seq<Spell>, d: Spell): (k: nat)
    requires d in order
    ensures k < |order| && order[k] == d
    ensures forall j :: 0 <= j < k ==> order[j] != d
  {
    if order[0] == d then 0 else 1 + Position(order[1..], d)
  }

  function Abs(x: int): nat
  {
    if x < 0 then -x else x
  }

  /** `sum(1 for v in s if v >= t)`: the number of positions holding a sample at or above t. */
  function CountAtLeast(s: seq<int>, t: int): (n: nat)
    ensures n == |set i | 0 <= i < |s| && s[i] >= t|
    ensures n <= |s|
    ensures n > 0 <==> exists i :: 0 <= i < |s| && s[i] >= t
  {
    if s == [] then 0
    else
      var p := s[..|s| - 1];
      assert forall i :: 0 <= i < |p| ==> p[i] == s[i];
      assert (set i | 0 <= i < |s| && s[i] >= t) ==
             (set i | 0 <= i < |p| && p[i] >= t) + (if s[|s| - 1] >= t then {|s| - 1} else {});
      CountAtLeast(p, t) + (if s[|s| - 1] >= t then 1 else 0)
  }

  /** `sum(1 for v in s if v <= t)`: the number of positions holding a sample at or below t. */
  function CountAtMost(s: seq<int>, t: int): (n: nat)
    ensures n == |set i | 0 <= i < |s| && s[i] <= t|
    ensures n <= |s|
    ensures n > 0 <==> exists i :: 0 <= i < |s| && s[i] <= t
  {
    if s == [] then 0
    else
      var p := s[..|s| - 1];
      assert forall i :: 0 <= i < |p| ==> p[i] == s[i];
      assert (set i | 0 <= i < |s| && s[i] <= t) ==
             (set i | 0 <= i < |p| && p[i] <= t) + (if s[|s| - 1] <= t then {|s| - 1} else {});
      CountAtMost(p, t) + (if s[|s| - 1] <= t then 1 else 0)
  }

  /** `max(s, default=0)` */
  function MaxOr0(s: seq<int>): (m: int)
    ensures |s| == 0 ==> m == 0
    ensures |s| > 0 ==> m in s && forall i :: 0 <= i < |s| ==> s[i] <= m
  {
    if |s| == 0 then 0
    else if |s| == 1 then s[0]
    else
      var rest := MaxOr0(s[1..]);
      assert forall i :: 1 <= i < |s| ==> s[i] == s[1..][i - 1];
      if s[0] >= rest then s[0] else rest
  }

  /** `min(s, default=0)` */
  function MinOr0(s: seq<int>): (m: int)
    ensures |s| == 0 ==> m == 0
    ensures |s| > 0 ==> m in s && forall i :: 0 <= i < |s| ==> m <= s[i]
  {
    if |s| == 0 then 0
    else if |s| == 1 then s[0]
    else
      var rest := MinOr0(s[1..]);
      assert forall i :: 1 <= i < |s| ==> s[i] == s[1..][i - 1];
      if s[0] <= rest then s[0] else rest
  }

  /**
   * The index that Python's `max` over a sequence returns: it scans left to
   * right and replaces its candidate only on a strictly greater key, so the
   * result is the first position holding the greatest key.
   */
  function FirstMax(keys: seq<int>): (k: nat)
    requires |keys| > 0
    ensures k < |keys|
    ensures forall j :: 0 <= j < |keys| ==> keys[j] <= keys[k]
    ensures forall j :: 0 <= j < k ==> keys[j] < keys[k]
  {
    if |keys| == 1 then 0
    else
      var k' := FirstMax(keys[..|keys| - 1]);
      if keys[|keys| - 1] > keys[k'] then |keys| - 1 else k'
  }

  /** The strong count of a direction: samples on its axis beyond THRESHOLD on its side. */
  function StrongCount(d: Spell, lr: seq<int>, ud: seq<int>): (n: nat)
    requires d != Other
    ensures d == Up ==> n == |set i | 0 <= i < |ud| && ud[i] >= THRESHOLD|
    ensures d == Down ==> n == |set i | 0 <= i < |ud| && ud[i] <= -THRESHOLD|
    ensures d == Left ==> n == |set i | 0 <= i < |lr| && lr[i] >= THRESHOLD|
    ensures d == Right ==> n == |set i | 0 <= i < |lr| && lr[i] <= -THRESHOLD|
  {
    match d
    case Up => CountAtLeast(ud, THRESHOLD)
    case Down => CountAtMost(ud, -THRESHOLD)
    case Left => CountAtLeast(lr, THRESHOLD)
    case Right => CountAtMost(lr, -THRESHOLD)
  }

  /** p is 0 for an empty window, otherwise the magnitude of a sample that no sample exceeds. */
  ghost predicate IsMaxPeak(p: int, s: seq<int>)
  {
    if |s| == 0 then p == 0
    else exists i :: 0 <= i < |s| && p == Abs(s[i]) && forall j :: 0 <= j < |s| ==> s[j] <= s[i]
  }

  /** p is 0 for an empty window, otherwise the magnitude of a sample that no sample undercuts. */
  ghost predicate IsMinPeak(p: int, s: seq<int>)
  {
    if |s| == 0 then p == 0
    else exists i :: 0 <= i < |s| && p == Abs(s[i]) && forall j :: 0 <= j < |s| ==> s[i] <= s[j]
  }

  /** The peak of a direction: the magnitude of its axis maximum or minimum, 0 if empty. */
  function Peak(d: Spell, lr: seq<int>, ud: seq<int>): (p: nat)
    requires d != Other
    ensures d == Up ==> IsMaxPeak(p, ud)
    ensures d == Down ==> IsMinPeak(p, ud)
    ensures d == Left ==> IsMaxPeak(p, lr)
    ensures d == Right ==> IsMinPeak(p, lr)
  {
    match d
    case Up => Abs(MaxOr0(ud))
    case Down => Abs(MinOr0(ud))
    case Left => Abs(MaxOr0(lr))
    case Right => Abs(MinOr0(lr))
  }

  /** The strong counts of the four candidates, as the table is visited. */
  function Counts(order: seq<Spell>, lr: seq<int>, ud: seq<int>): (c: seq<int>)
    requires IsVisitOrder(order)
    ensures |c| == |order|
    ensures forall k :: 0 <= k < |order| ==> c[k] == StrongCount(order[k], lr, ud)
  {
    seq(4, k requires 0 <= k < 4 => StrongCount(order[k], lr, ud))
  }

  /** The peaks of the four candidates, as the table is visited. */
  function Peaks(order: seq<Spell>, lr: seq<int>, ud: seq<int>): (p: seq<int>)
    requires IsVisitOrder(order)
    ensures |p| == |order|
    ensures forall k :: 0 <= k < |order| ==> p[k] == Peak(order[k], lr, ud)
  {
    seq(4, k requires 0 <= k < 4 => Peak(order[k], lr, ud))
  }

  /**
   * `Wand.determine_spell(lr_data, ud_data)` with the candidate table
   * visited in the given order.
   */
  function DetermineSpellIn(order: seq<Spell>, lr: seq<int>, ud: seq<int>): (r: Spell)
    requires IsVisitOrder(order)
    ensures r == Other <==>
            forall e :: e != Other ==> StrongCount(e, lr, ud) == 0 && Peak(e, lr, ud) <= QUIET_PEAK
    ensures r != Other ==> StrongCount(r, lr, ud) > 0 || Peak(r, lr, ud) > QUIET_PEAK
  {
    var counts, peaks := Counts(order, lr, ud), Peaks(order, lr, ud);
    var byCount, byPeak := FirstMax(counts), FirstMax(peaks);
    TableMaxima(order, lr, ud);
    if counts[byCount] > 0 then order[byCount]
    else if peaks[byPeak] > QUIET_PEAK then order[byPeak]
    else Other
  }

  /** The first maxima of the table bound the count and the peak of every direction. */
  lemma TableMaxima(order: seq<Spell>, lr: seq<int>, ud: seq<int>)
    requires IsVisitOrder(order)
    ensures forall e :: e != Other ==>
      StrongCount(e, lr, ud) <= Counts(order, lr, ud)[FirstMax(Counts(order, lr, ud))] &&
      Peak(e, lr, ud) <= Peaks(order, lr, ud)[FirstMax(Peaks(order, lr, ud))]
  {
    var c, p := Counts(order, lr, ud), Peaks(order, lr, ud);
    forall e | e != Other
      ensures StrongCount(e, lr, ud) <= c[FirstMax(c)] && Peak(e, lr, ud) <= p[FirstMax(p)]
    {
      var k := Position(order, e);
      assert c[k] == StrongCount(e, lr, ud) && p[k] == Peak(e, lr, ud);
    }
  }

  /** `Wand.determine_spell(lr_data, ud_data)` as the device runs it. */
  function DetermineSpell(lr: seq<int>, ud: seq<int>): (r: Spell)
    ensures r == Other <==>
            forall e :: e != Other ==> StrongCount(e, lr, ud) == 0 && Peak(e, lr, ud) <= QUIET_PEAK
    ensures r != Other ==> StrongCount(r, lr, ud) > 0 || Peak(r, lr, ud) > QUIET_PEAK
  {
    assert IsVisitOrder(DeviceOrder) by { DeviceOrderIsVisitOrder(); }
    DetermineSpellIn(DeviceOrder, lr, ud)
  }

  lemma DeviceOrderIsVisitOrder()
    ensures IsVisitOrder(DeviceOrder) && IsVisitOrder(InsertionOrder)
  {
    forall d ensures d in DeviceOrder <==> d != Other {
      match d
      case Up => assert DeviceOrder[0] == d;
      case Right => assert DeviceOrder[1] == d;
      case Left => assert DeviceOrder[2] == d;
      case Down => assert DeviceOrder[3] == d;
      case Other =>
    }
    forall d ensures d in InsertionOrder <==> d != Other {
      match d
      case Up => assert InsertionOrder[0] == d;
      case Down => assert InsertionOrder[1] == d;
      case Left => assert InsertionOrder[2] == d;
      case Right => assert InsertionOrder[3] == d;
      case Other =>
    }
  }

  // ---------------------------------------------------------------------
  // What the classifier promises, stated without reference to its body.

  /** In a visiting order, every direction sits at its own position. */
  lemma PositionOf(order: seq<Spell>, k: nat)
    requires IsVisitOrder(order) && k < |order|
    ensures order[k] != Other && Position(order, order[k]) == k
  {
    var p := Position(order, order[k]);
    assert order[p] == order[k];
  }

  /** d has the greatest strong count, and every direction visited before it a smaller one. */
  ghost predicate IsCountWinner(order: seq<Spell>, d: Spell, lr: seq<int>, ud: seq<int>)
    requires IsVisitOrder(order)
  {
    d != Other &&
    forall e :: e != Other ==>
      StrongCount(e, lr, ud) <= StrongCount(d, lr, ud) &&
      (Position(order, e) < Position(order, d) ==> StrongCount(e, lr, ud) < StrongCount(d, lr, ud))
  }

  /** d has the greatest peak, and every direction visited before it a smaller one. */
  ghost predicate IsPeakWinner(order: seq<Spell>, d: Spell, lr: seq<int>, ud: seq<int>)
    requires IsVisitOrder(order)
  {
    d != Other &&
    forall e :: e != Other ==>
      Peak(e, lr, ud) <= Peak(d, lr, ud) &&
      (Position(order, e) < Position(order, d) ==> Peak(e, lr, ud) < Peak(d, lr, ud))
  }

  ghost predicate SomeStrong(lr: seq<int>, ud: seq<int>)
  {
    exists e :: e != Other && StrongCount(e, lr, ud) > 0
  }

  /** The first maximum of a key sequence is unique. */
  lemma FirstMaxUnique(keys: seq<int>, a: nat, b: nat)
    requires a < |keys| && b < |keys|
    requires forall j :: 0 <= j < |keys| ==> keys[j] <= keys[a] && keys[j] <= keys[b]
    requires forall j :: 0 <= j < a ==> keys[j] < keys[a]
    requires forall j :: 0 <= j < b ==> keys[j] < keys[b]
    ensures a == b
  {
    assert keys[a] == keys[b];
  }

  /** A direction is the count winner exactly when its position is the first maximum of Counts. */
  lemma CountWinnerAt(order: seq<Spell>, lr: seq<int>, ud: seq<int>, k: nat)
    requires IsVisitOrder(order) && k < |order|
    ensures IsCountWinner(order, order[k], lr, ud) <==>
            (forall j :: 0 <= j < 4 ==> Counts(order, lr, ud)[j] <= Counts(order, lr, ud)[k]) &&
            (forall j :: 0 <= j < k ==> Counts(order, lr, ud)[j] < Counts(order, lr, ud)[k])
  {
    var c := Counts(order, lr, ud);
    PositionOf(order, k);
    if IsCountWinner(order, order[k], lr, ud) {
      forall j | 0 <= j < 4
        ensures c[j] <= c[k] && (j < k ==> c[j] < c[k])
      {
        PositionOf(order, j);
      }
    }
    if (forall j :: 0 <= j < 4 ==> c[j] <= c[k]) && (forall j :: 0 <= j < k ==> c[j] < c[k]) {
      forall e | e != Other
        ensures StrongCount(e, lr, ud) <= StrongCount(order[k], lr, ud)
        ensures Position(order, e) < Position(order, order[k]) ==>
                StrongCount(e, lr, ud) < StrongCount(order[k], lr, ud)
      {
        assert c[Position(order, e)] == StrongCount(e, lr, ud);
      }
    }
  }

  /** A direction is the peak winner exactly when its position is the first maximum of Peaks. */
  lemma PeakWinnerAt(order: seq<Spell>, lr: seq<int>, ud: seq<int>, k: nat)
    requires IsVisitOrder(order) && k < |order|
    ensures IsPeakWinner(order, order[k], lr, ud) <==>
            (forall j :: 0 <= j < 4 ==> Peaks(order, lr, ud)[j] <= Peaks(order, lr, ud)[k]) &&
            (forall j :: 0 <= j < k ==> Peaks(order, lr, ud)[j] < Peaks(order, lr, ud)[k])
  {
    var p := Peaks(order, lr, ud);
    PositionOf(order, k);
    if IsPeakWinner(order, order[k], lr, ud) {
      forall j | 0 <= j < 4
        ensures p[j] <= p[k] && (j < k ==> p[j] < p[k])
      {
        PositionOf(order, j);
      }
    }
    if (forall j :: 0 <= j < 4 ==> p[j] <= p[k]) && (forall j :: 0 <= j < k ==> p[j] < p[k]) {
      forall e | e != Other
        ensures Peak(e, lr, ud) <= Peak(order[k], lr, ud)
        ensures Position(order, e) < Position(order, order[k]) ==>
                Peak(e, lr, ud) < Peak(order[k], lr, ud)
      {
        assert p[Position(order, e)] == Peak(e, lr, ud);
      }
    }
  }

  /**
   * When some strong count is positive, the spell is the direction with the
   * greatest count, ties going to the one visited first.
   */
  lemma CountRule(order: seq<Spell>, lr: seq<int>, ud: seq<int>, d: Spell)
    requires IsVisitOrder(order)
    requires SomeStrong(lr, ud)
    ensures DetermineSpellIn(order, lr, ud) == d <==> IsCountWinner(order, d, lr, ud)
  {
    var c := Counts(order, lr, ud);
    var k := FirstMax(c);
    var e :| e != Other && StrongCount(e, lr, ud) > 0;
    assert c[Position(order, e)] > 0;
    assert DetermineSpellIn(order, lr, ud) == order[k];
    CountWinnerAt(order, lr, ud, k);
    if IsCountWinner(order, d, lr, ud) {
      var kd := Position(order, d);
      PositionOf(order, kd);
      CountWinnerAt(order, lr, ud, kd);
      FirstMaxUnique(c, k, kd);
    }
  }

  /**
   * When every strong count is zero, the spell is the direction with the
   * greatest peak (ties to the one visited first) if that peak exceeds 10,
   * and Other otherwise; a greatest peak of exactly 10 gives Other.
   */
  lemma PeakRule(order: seq<Spell>, lr: seq<int>, ud: seq<int>, d: Spell)
    requires IsVisitOrder(order)
    requires forall e :: e != Other ==> StrongCount(e, lr, ud) == 0
    ensures DetermineSpellIn(order, lr, ud) == d <==>
            (IsPeakWinner(order, d, lr, ud) && Peak(d, lr, ud) > QUIET_PEAK) ||
            (d == Other && forall e :: e != Other ==> Peak(e, lr, ud) <= QUIET_PEAK)
  {
    var c, p := Counts(order, lr, ud), Peaks(order, lr, ud);
    var k := FirstMax(p);
    assert c[FirstMax(c)] == StrongCount(order[FirstMax(c)], lr, ud) == 0;
    PeakWinnerAt(order, lr, ud, k);
    if IsPeakWinner(order, d, lr, ud) {
      var kd := Position(order, d);
      PositionOf(order, kd);
      PeakWinnerAt(order, lr, ud, kd);
      FirstMaxUnique(p, k, kd);
    }
    if p[k] <= QUIET_PEAK {
      forall e | e != Other ensures Peak(e, lr, ud) <= QUIET_PEAK {
        assert p[Position(order, e)] == Peak(e, lr, ud);
      }
    } else {
      assert Peak(order[k], lr, ud) > QUIET_PEAK;
    }
  }

  /** A direction whose positive count beats every other count wins in every visiting order. */
  lemma StrictCountWinner(order: seq<Spell>, lr: seq<int>, ud: seq<int>, d: Spell)
    requires IsVisitOrder(order)
    requires d != Other && StrongCount(d, lr, ud) > 0
    requires forall e :: e != Other && e != d ==> StrongCount(e, lr, ud) < StrongCount(d, lr, ud)
    ensures DetermineSpellIn(order, lr, ud) == d
  {
    CountRule(order, lr, ud, d);
  }

  /**
   * With no strong sample, a direction whose peak exceeds 10 and beats every
   * other peak wins in every visiting order.
   */
  lemma StrictPeakWinner(order: seq<Spell>, lr: seq<int>, ud: seq<int>, d: Spell)
    requires IsVisitOrder(order)
    requires forall e :: e != Other ==> StrongCount(e, lr, ud) == 0
    requires d != Other && Peak(d, lr, ud) > QUIET_PEAK
    requires forall e :: e != Other && e != d ==> Peak(e, lr, ud) < Peak(d, lr, ud)
    ensures DetermineSpellIn(order, lr, ud) == d
  {
    PeakRule(order, lr, ud, d);
  }

  /** A single sample at or beyond the threshold on either axis forces a direction. */
  lemma StrongSampleNeverOther(lr: seq<int>, ud: seq<int>, i: nat)
    requires (i < |ud| && (ud[i] >= THRESHOLD || ud[i] <= -THRESHOLD)) ||
             (i < |lr| && (lr[i] >= THRESHOLD || lr[i] <= -THRESHOLD))
    ensures DetermineSpell(lr, ud) != Other
  {
    if i < |ud| && ud[i] >= THRESHOLD {
      assert StrongCount(Up, lr, ud) > 0;
    } else if i < |ud| && ud[i] <= -THRESHOLD {
      assert StrongCount(Down, lr, ud) > 0;
    } else if lr[i] >= THRESHOLD {
      assert StrongCount(Left, lr, ud) > 0;
    } else {
      assert StrongCount(Right, lr, ud) > 0;
    }
  }

  /** A window whose samples all lie within [-10, 10] is unclassifiable. */
  lemma QuietWindowIsOther(lr: seq<int>, ud: seq<int>)
    requires forall i :: 0 <= i < |lr| ==> -QUIET_PEAK <= lr[i] <= QUIET_PEAK
    requires forall i :: 0 <= i < |ud| ==> -QUIET_PEAK <= ud[i] <= QUIET_PEAK
    ensures DetermineSpell(lr, ud) == Other
  {
    forall e | e != Other
      ensures StrongCount(e, lr, ud) == 0 && Peak(e, lr, ud) <= QUIET_PEAK
    {
    }
  }

  /**
   * An empty window (a press released before any poll) has every count and
   * every peak 0, and classifies as Other.
   */
  lemma EmptyWindowIsOther()
    ensures forall d :: d != Other ==> StrongCount(d, [], []) == 0 && Peak(d, [], []) == 0
    ensures DetermineSpell([], []) == Other
  {
    QuietWindowIsOther([], []);
  }

  /** Every strong count is bounded by the length of its axis window. */
  lemma StrongCountBounded(d: Spell, lr: seq<int>, ud: seq<int>)
    requires d != Other
    ensures StrongCount(d, lr, ud) <= (if d == Up || d == Down then |ud| else |lr|)
  {
  }

  /**
   * Ties are where the visiting order shows. Down and Right both count one
   * saturated sample here: the device visits Right first and returns Right,
   * while a dict in insertion order would give Down.
   */
  lemma TieBreakFollowsVisitOrder()
    ensures DetermineSpell([-40000], [-40000]) == Right
    ensures DetermineSpellIn(InsertionOrder, [-40000], [-40000]) == Down
  {
    DeviceOrderIsVisitOrder();
    var lr, ud := [-40000], [-40000];
    assert StrongCount(Down, lr, ud) == StrongCount(Right, lr, ud) == 1;
    assert StrongCount(Up, lr, ud) == StrongCount(Left, lr, ud) == 0;
    CountRule(DeviceOrder, lr, ud, Right);
    CountRule(InsertionOrder, lr, ud, Down);
  }

  /**
   * The peak of Up is the magnitude of the maximum, even when that maximum
   * is negative: a vertical window holding only -11 ties Up and Down at 11,
   * and Up, visited first, wins.
   */
  lemma NegativeVerticalWindowGivesUp()
    ensures DetermineSpell([], [-11]) == Up
  {
    DeviceOrderIsVisitOrder();
    var lr, ud := [], [-11];
    assert Peak(Up, lr, ud) == Peak(Down, lr, ud) == 11;
    assert Peak(Left, lr, ud) == Peak(Right, lr, ud) == 0;
    assert StrongCount(Up, lr, ud) == StrongCount(Down, lr, ud) == 0;
    PeakRule(DeviceOrder, lr, ud, Up);
  }

  /** Two saturated vertical samples out of three give Up. */
  lemma SaturatedUpExample()
    ensures DetermineSpell([0, 0, 0], [40000, 40000, 100]) == Up
  {
    DeviceOrderIsVisitOrder();
    var lr, ud := [0, 0, 0], [40000, 40000, 100];
    assert StrongCount(Up, lr, ud) == 2;
    assert StrongCount(Down, lr, ud) == StrongCount(Left, lr, ud) == StrongCount(Right, lr, ud) == 0;
    StrictCountWinner(DeviceOrder, lr, ud, Up);
  }

  /** With no strong sample, the vertical peak 15 beats the lateral peak 12. */
  lemma WeakUpExample()
    ensures DetermineSpell([12, 3], [15, -8]) == Up
  {
    DeviceOrderIsVisitOrder();
    var lr, ud := [12, 3], [15, -8];
    assert Peak(Up, lr, ud) == 15 && Peak(Down, lr, ud) == 8;
    assert Peak(Left, lr, ud) == 12 && Peak(Right, lr, ud) == 3;
    StrictPeakWinner(DeviceOrder, lr, ud, Up);
  }

  /** A greatest peak of 5 is too small to classify. */
  lemma SmallMotionExample()
    ensures DetermineSpell([2, 1], [5, -3]) == Other
  {
    QuietWindowIsOther([2, 1], [5, -3]);
  }

  /**
   * The fallback boundary: a greatest peak of exactly 10 gives Other, and a
   * greatest peak of 11 held by one direction alone gives that direction.
   */
  lemma PeakBoundaryExamples()
    ensures DetermineSpell([], [10]) == Other
    ensures DetermineSpell([11, -3], []) == Left
  {
    QuietWindowIsOther([], [10]);
    DeviceOrderIsVisitOrder();
    var lr, ud := [11, -3], [];
    assert Peak(Left, lr, ud) == 11 && Peak(Right, lr, ud) == 3;
    assert Peak(Up, lr, ud) == Peak(Down, lr, ud) == 0;
    StrictPeakWinner(DeviceOrder, lr, ud, Left);
  }
}
