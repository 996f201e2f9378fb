/** The staged stand-up trajectories: each stage moves all joints from one waypoint to the next by
    equal parts, one part per control tick, and starts in the tick in which the stage before it
    ends.  Floating point is modelled by exact reals. */
module StandTrajectory {
  import opened Wrappers

  /** The number of ticks of each stage, all positive. */
  type Durations = d: seq<nat> | |d| > 0 && forall i :: 0 <= i < |d| ==> d[i] > 0 witness [1]

  // ---- Progress in whole ticks ----

  /** The active ticks before stage i: each earlier stage shares its last tick with the next. */
  function Start(d: Durations, i: nat): nat
    requires i <= |d|
  {
    if i == 0 then 0 else Start(d, i - 1) + d[i - 1] - 1
  }

  /** How many of its parts stage i has made after t active ticks. */
  function Parts(d: Durations, t: nat, i: nat): (c: nat)
    requires i < |d|
    ensures c <= d[i]
  {
    if t <= Start(d, i) then 0 else if t - Start(d, i) < d[i] then t - Start(d, i) else d[i]
  }

  predicate Complete(d: Durations, t: nat, i: nat)
    requires i < |d|
  {
    Parts(d, t, i) == d[i]
  }

  predicate AllComplete(d: Durations, t: nat, n: nat)
    requires n <= |d|
  {
    forall j :: 0 <= j < n ==> Complete(d, t, j)
  }

  lemma {:induction false} StartGrows(d: Durations, j: nat, i: nat)
    requires j < i <= |d|
    ensures Start(d, j) + d[j] - 1 <= Start(d, i)
    decreases i - j
  {
    if j < i - 1 {
      StartGrows(d, j, i - 1);
    }
  }

  /** A stage has progress only if all earlier stages are complete, and it progresses in every
      tick from then on until it is complete itself. */
  lemma StagesInOrder(d: Durations, t: nat, i: nat)
    requires i < |d|
    ensures Parts(d, t, i) > 0 ==> AllComplete(d, t, i)
    ensures Parts(d, t + 1, i) ==
            if AllComplete(d, t + 1, i) && Parts(d, t, i) < d[i] then Parts(d, t, i) + 1 else Parts(d, t, i)
  {
    forall j | 0 <= j < i ensures Start(d, j) + d[j] - 1 <= Start(d, i) {
      StartGrows(d, j, i);
    }
    if i > 0 && AllComplete(d, t + 1, i) {
      assert Complete(d, t + 1, i - 1);
    }
  }

  function Total(d: seq<nat>): nat {
    if d == [] then 0 else Total(d[..|d| - 1]) + d[|d| - 1]
  }

  lemma {:induction false} StartIsTotal(d: Durations, i: nat)
    requires i <= |d|
    ensures Start(d, i) + i == Total(d[..i])
  {
    if i > 0 {
      StartIsTotal(d, i - 1);
      assert d[..i][..i - 1] == d[..i - 1];
    }
  }

  /** The last stage completes exactly at active tick d1 + ... + dm - (m - 1), and with it all. */
  lemma LastTick(d: Durations, t: nat)
    ensures AllComplete(d, t, |d|) <==> t + (|d| - 1) >= Total(d)
  {
    var k := |d| - 1;
    StartIsTotal(d, k);
    assert d[..k + 1] == d && d[..k + 1][..k] == d[..k];
    StagesInOrder(d, t, k);
    assert Complete(d, t, k) <==> t >= Start(d, k) + d[k];
  }

  /** The stage that moves the joints: the last one with progress. */
  function Active(d: Durations, t: nat, n: nat): (i: nat)
    requires 0 < n <= |d|
    ensures i < n
    ensures i > 0 ==> Parts(d, t, i) > 0
    ensures forall j :: i < j < n ==> Parts(d, t, j) == 0
  {
    if n == 1 || Parts(d, t, n - 1) > 0 then n - 1 else Active(d, t, n - 1)
  }

  // ---- One joint ----

  function Fraction(c: nat, d: nat): real
    requires d > 0
  {
    c as real / d as real
  }

  function Blend(from: real, to: real, p: real): real {
    (1.0 - p) * from + p * to
  }

  /** The commanded position at active tick t of a joint with waypoints w. */
  function Position(d: Durations, w: seq<real>, t: nat): real
    requires |w| == |d| + 1
  {
    var i := Active(d, t, |d|);
    Blend(w[i], w[i + 1], Fraction(Parts(d, t, i), d[i]))
  }

  lemma FractionRange(c: nat, d: nat)
    requires 0 < d && c <= d
    ensures Fraction(c, d) == 1.0 <==> c == d
    ensures Fraction(c, d) < 1.0 <==> c < d
  {
    QuotientBelowOne(c as real, d as real);
  }

  lemma QuotientBelowOne(x: real, y: real)
    requires 0.0 < y
    ensures (x / y < 1.0 <==> x < y) && (x / y == 1.0 <==> x == y)
  {
    AddQuotients(x, y - x, y);
    assert x + (y - x) == y && y / y == 1.0;
    QuotientSign(y - x, y);
  }

  lemma QuotientSign(x: real, y: real)
    requires 0.0 < y
    ensures (0.0 < x ==> 0.0 < x / y) && (x < 0.0 ==> x / y < 0.0) && (x == 0.0 ==> x / y == 0.0)
  {
  }

  /** Adding one part, as the code does; the sum passes 1 exactly when all parts were made. */
  lemma FractionStep(c: nat, d: nat)
    requires 0 < d && c <= d
    ensures Fraction(c, d) + 1.0 / d as real == Fraction(c + 1, d)
    ensures Fraction(c + 1, d) > 1.0 <==> c == d
  {
    QuotientBelowOne((c + 1) as real, d as real);
    AddQuotients(c as real, 1.0, d as real);
  }

  lemma AddQuotients(x: real, y: real, z: real)
    requires z != 0.0
    ensures x / z + y / z == (x + y) / z
  {
  }

  /** The trajectory leaves from the first waypoint, and rests at the last from the tick on that
      completes all stages. */
  lemma EndsOfTrajectory(d: Durations, w: seq<real>, t: nat)
    requires |w| == |d| + 1
    ensures Position(d, w, 0) == w[0]
    ensures t + (|d| - 1) >= Total(d) ==> Position(d, w, t) == w[|d|]
  {
    NothingMade(d, |d|);
    assert Fraction(0, d[0]) == 0.0;
    LastTick(d, t);
    if AllComplete(d, t, |d|) {
      assert Complete(d, t, |d| - 1);
      FractionRange(d[|d| - 1], d[|d| - 1]);
    }
  }

  lemma {:induction false} NothingMade(d: Durations, n: nat)
    requires 0 < n <= |d|
    ensures Active(d, 0, n) == 0
  {
    if n > 1 {
      NothingMade(d, n - 1);
    }
  }

  // ---- Bounds on the movement ----

  /** A commanded joint lies between the two waypoints of the stage that moves it. */
  lemma PositionBetweenWaypoints(d: Durations, w: seq<real>, t: nat)
    requires |w| == |d| + 1
    ensures var i := Active(d, t, |d|);
      var x := Position(d, w, t);
      (w[i] <= x <= w[i + 1] || w[i + 1] <= x <= w[i]) && AllComplete(d, t, i)
  {
    var i := Active(d, t, |d|);
    StagesInOrder(d, t, i);
    var c, x := Parts(d, t, i), w[i + 1] - w[i];
    BlendIsPortion(w[i], w[i + 1], c, d[i]);
    PortionBetween(c, d[i], x, d[i]);
    WholePortion(d[i], x);
  }

  lemma {:induction false} PortionBetween(c: nat, d: nat, x: real, n: nat)
    requires d > 0 && c <= n
    ensures 0.0 <= x ==> 0.0 <= Portion(c, d, x) <= Portion(n, d, x)
    ensures x <= 0.0 ==> Portion(n, d, x) <= Portion(c, d, x) <= 0.0
    decreases n
  {
    PartSign(x, d);
    if c < n {
      PortionBetween(c, d, x, n - 1);
    } else if n > 0 {
      PortionBetween(n - 1, d, x, n - 1);
    }
  }

  lemma PartSign(x: real, d: nat)
    requires d > 0
    ensures (0.0 <= x ==> 0.0 <= x / d as real) && (x <= 0.0 ==> x / d as real <= 0.0)
  {
  }

  /** The same position as the start plus the part made of each segment. */
  ghost function Travel(d: Durations, w: seq<real>, t: nat, n: nat): real
    requires n <= |d| && |w| == |d| + 1
  {
    if n == 0 then w[0]
    else Travel(d, w, t, n - 1) + Portion(Parts(d, t, n - 1), d[n - 1], w[n] - w[n - 1])
  }

  /** c of the d equal parts of x. */
  ghost function Portion(c: nat, d: nat, x: real): real
    requires d > 0
  {
    if c == 0 then 0.0 else Portion(c - 1, d, x) + x / d as real
  }

  lemma {:induction false} PortionIsFraction(c: nat, d: nat, x: real)
    requires d > 0
    ensures Portion(c, d, x) == Fraction(c, d) * x
  {
    if c == 0 {
      assert Fraction(0, d) == 0.0;
    } else {
      PortionIsFraction(c - 1, d, x);
      FractionOfNext(c - 1, d);
      DivideIsScale(x, d as real);
      AddScales(Fraction(c - 1, d), 1.0 / d as real, x);
    }
  }

  lemma DivideIsScale(x: real, e: real)
    requires e != 0.0
    ensures x / e == (1.0 / e) * x
  {
  }

  lemma AddScales(p: real, q: real, x: real)
    ensures (p + q) * x == p * x + q * x
  {
  }

  lemma {:induction false} TravelOfComplete(d: Durations, w: seq<real>, t: nat, n: nat)
    requires n <= |d| && |w| == |d| + 1 && AllComplete(d, t, n)
    ensures Travel(d, w, t, n) == w[n]
  {
    if n > 0 {
      TravelOfComplete(d, w, t, n - 1);
      assert Complete(d, t, n - 1);
      WholePortion(d[n - 1], w[n] - w[n - 1]);
    }
  }

  lemma WholePortion(d: nat, x: real)
    requires d > 0
    ensures Portion(d, d, x) == x
  {
    PortionIsFraction(d, d, x);
    FractionRange(d, d);
  }

  lemma {:induction false} TravelOfRest(d: Durations, w: seq<real>, t: nat, i: nat, n: nat)
    requires i <= n <= |d| && |w| == |d| + 1
    requires forall j :: i <= j < n ==> Parts(d, t, j) == 0
    ensures Travel(d, w, t, n) == Travel(d, w, t, i)
    decreases n
  {
    if i < n {
      TravelOfRest(d, w, t, i, n - 1);
    }
  }

  lemma PositionIsTravel(d: Durations, w: seq<real>, t: nat)
    requires |w| == |d| + 1
    ensures Position(d, w, t) == Travel(d, w, t, |d|)
  {
    var i := Active(d, t, |d|);
    TravelAt(d, w, t, i);
    BlendIsPortion(w[i], w[i + 1], Parts(d, t, i), d[i]);
  }

  lemma TravelAt(d: Durations, w: seq<real>, t: nat, i: nat)
    requires |w| == |d| + 1 && i < |d| && (i > 0 ==> Parts(d, t, i) > 0)
    requires forall j :: i < j < |d| ==> Parts(d, t, j) == 0
    ensures Travel(d, w, t, |d|) == w[i] + Portion(Parts(d, t, i), d[i], w[i + 1] - w[i])
  {
    StagesInOrder(d, t, i);
    TravelOfComplete(d, w, t, i);
    TravelOfRest(d, w, t, i + 1, |d|);
  }

  lemma BlendIsPortion(a: real, b: real, c: nat, d: nat)
    requires d > 0
    ensures Blend(a, b, Fraction(c, d)) == a + Portion(c, d, b - a)
  {
    BlendIsShift(a, b, Fraction(c, d));
    PortionIsFraction(c, d, b - a);
  }

  lemma BlendIsShift(a: real, b: real, p: real)
    ensures Blend(a, b, p) == a + p * (b - a)
  {
  }

  function Abs(x: real): real {
    if x < 0.0 then -x else x
  }

  /** The movement per tick in segment k. */
  function Rate(d: Durations, w: seq<real>, k: nat): real
    requires k < |d| && |w| == |d| + 1
  {
    Abs((w[k + 1] - w[k]) / d[k] as real)
  }

  predicate Advances(d: Durations, t: nat, k: nat)
    requires k < |d|
  {
    Parts(d, t + 1, k) != Parts(d, t, k)
  }

  /** The sum of the rates of the stages that advance in the tick after t. */
  ghost function AdvancingRates(d: Durations, w: seq<real>, t: nat, n: nat): real
    requires n <= |d| && |w| == |d| + 1
  {
    if n == 0 then 0.0
    else AdvancingRates(d, w, t, n - 1) + if Advances(d, t, n - 1) then Rate(d, w, n - 1) else 0.0
  }

  lemma {:induction false} TravelChange(d: Durations, w: seq<real>, t: nat, n: nat)
    requires n <= |d| && |w| == |d| + 1
    ensures Abs(Travel(d, w, t + 1, n) - Travel(d, w, t, n)) <= AdvancingRates(d, w, t, n)
  {
    if n > 0 {
      TravelChange(d, w, t, n - 1);
      StagesInOrder(d, t, n - 1);
    }
  }

  lemma FractionOfNext(c: nat, d: nat)
    requires d > 0
    ensures Fraction(c + 1, d) == Fraction(c, d) + 1.0 / d as real
  {
    AddQuotients(c as real, 1.0, d as real);
  }

  /** No stage other than the first and the last is a single tick. */
  predicate NoSingleTickInside(d: Durations) {
    forall k :: 0 < k < |d| - 1 ==> d[k] >= 2
  }

  /** Then only the moving stage and the next one can advance in a tick. */
  lemma OnlyAdjacentAdvance(d: Durations, t: nat, k: nat)
    requires NoSingleTickInside(d) && k < |d| && Advances(d, t, k)
    ensures k == Active(d, t, |d|) || k == Active(d, t, |d|) + 1
  {
    var i := Active(d, t, |d|);
    StagesInOrder(d, t, k);
    StagesInOrder(d, t, i);
    assert k < i ==> Complete(d, t, k);
    assert i + 1 < |d| ==> Parts(d, t, i + 1) == 0;
    if k > i + 1 {
      StartGrows(d, i + 1, k);
    }
  }

  lemma {:induction false} RatesOfTwo(d: Durations, w: seq<real>, t: nat, n: nat, i: nat)
    requires n <= |d| && |w| == |d| + 1 && i < |d|
    requires forall k :: 0 <= k < |d| && Advances(d, t, k) ==> k == i || k == i + 1
    ensures AdvancingRates(d, w, t, n) <=
            (if i < n then Rate(d, w, i) else 0.0) + (if i + 1 < n then Rate(d, w, i + 1) else 0.0)
  {
    if n > 0 {
      RatesOfTwo(d, w, t, n - 1, i);
      RateNonNegative(d, w, n - 1);
    }
  }

  lemma RateNonNegative(d: Durations, w: seq<real>, k: nat)
    requires k < |d| && |w| == |d| + 1
    ensures Rate(d, w, k) >= 0.0
  {
  }

  /** In one tick a joint moves at most by the rates of the stages that advance in it. */
  lemma ChangePerTick(d: Durations, w: seq<real>, t: nat)
    requires |w| == |d| + 1
    ensures Abs(Position(d, w, t + 1) - Position(d, w, t)) <= AdvancingRates(d, w, t, |d|)
  {
    PositionIsTravel(d, w, t);
    PositionIsTravel(d, w, t + 1);
    TravelChange(d, w, t, |d|);
  }

  /** The tick after t moves the joint at most by the rates of the moving segment and the next. */
  predicate MovesByTwoRates(d: Durations, w: seq<real>, t: nat)
    requires |w| == |d| + 1
  {
    var i := Active(d, t, |d|);
    Abs(Position(d, w, t + 1) - Position(d, w, t)) <= Rate(d, w, i) + if i + 1 < |d| then Rate(d, w, i + 1) else 0.0
  }

  /** That holds in every tick and for all waypoints exactly when no inner stage is a single tick. */
  lemma MovesByTwoRatesIff(d: Durations)
    ensures (forall w, t :: |w| == |d| + 1 ==> MovesByTwoRates(d, w, t)) <==> NoSingleTickInside(d)
  {
    if NoSingleTickInside(d) {
      forall w, t | |w| == |d| + 1 ensures MovesByTwoRates(d, w, t) {
        AdjacentRates(d, w, t);
      }
    } else {
      var k :| 0 < k < |d| - 1 && d[k] == 1;
      SingleTickJumps(d, k);
      assert !MovesByTwoRates(d, Late(|d| + 1, k), Start(d, k));
    }
  }

  lemma AdjacentRates(d: Durations, w: seq<real>, t: nat)
    requires NoSingleTickInside(d) && |w| == |d| + 1
    ensures var i := Active(d, t, |d|);
            Abs(Position(d, w, t + 1) - Position(d, w, t))
            <= Rate(d, w, i) + if i + 1 < |d| then Rate(d, w, i + 1) else 0.0
  {
    ChangePerTick(d, w, t);
    var i := Active(d, t, |d|);
    forall k | 0 <= k < |d| && Advances(d, t, k) ensures k == i || k == i + 1 {
      OnlyAdjacentAdvance(d, t, k);
    }
    RatesOfTwo(d, w, t, |d|, i);
  }

  /** Waypoints that differ only after segment k. */
  function Late(n: nat, k: nat): (w: seq<real>)
    ensures |w| == n && forall j :: 0 <= j < n ==> w[j] == if j <= k + 1 then 0.0 else 1.0
  {
    seq(n, j => if j <= k + 1 then 0.0 else 1.0)
  }

  /** A single-tick stage lets the stage before it, itself and the stage after it advance at once. */
  lemma SingleTickJumps(d: Durations, k: nat)
    requires 0 < k < |d| - 1 && d[k] == 1
    ensures !MovesByTwoRates(d, Late(|d| + 1, k), Start(d, k))
  {
    var w, t := Late(|d| + 1, k), Start(d, k);
    AroundSingleTick(d, k);
    var i, j := Active(d, t, |d|), Active(d, t + 1, |d|);
    BlendOfZeros(Fraction(Parts(d, t, i), d[i]));
    PositiveBlend(w[j], Parts(d, t + 1, j), d[j]);
    assert Position(d, w, t) == 0.0 && Position(d, w, t + 1) > 0.0;
    ZeroRate(d, w, i);
    ZeroRate(d, w, i + 1);
  }

  lemma ZeroRate(d: Durations, w: seq<real>, i: nat)
    requires |w| == |d| + 1 && i < |d| && w[i] == w[i + 1]
    ensures Rate(d, w, i) == 0.0
  {
    assert 0.0 / d[i] as real == 0.0;
  }

  lemma AroundSingleTick(d: Durations, k: nat)
    requires 0 < k < |d| - 1 && d[k] == 1
    ensures Active(d, Start(d, k), |d|) < k < Active(d, Start(d, k) + 1, |d|)
  {
    var t := Start(d, k);
    var i := Active(d, t, |d|);
    if k <= i {
      LaterStart(d, k, i);
    }
    assert Parts(d, t + 1, k + 1) == 1;
  }

  lemma {:induction false} LaterStart(d: Durations, k: nat, i: nat)
    requires k <= i <= |d|
    ensures Start(d, k) <= Start(d, i)
  {
    if k < i {
      StartGrows(d, k, i);
    }
  }

  lemma BlendOfZeros(p: real)
    ensures Blend(0.0, 0.0, p) == 0.0
  {
  }

  lemma PositiveBlend(from: real, c: nat, d: nat)
    requires (from == 0.0 || from == 1.0) && 0 < c <= d
    ensures Blend(from, 1.0, Fraction(c, d)) > 0.0
  {
    QuotientSign(c as real, d as real);
  }

  // ---- The controllers ----

  /** Joint positions of all twelve leg joints. */
  type Pose = p: seq<real> | |p| == 12 witness seq(12, _ => 0.0)

  function BlendPose(from: Pose, to: Pose, p: real): Pose {
    seq(12, j requires 0 <= j < 12 => Blend(from[j], to[j], p))
  }

  /** The commanded pose at active tick t; joint by joint it is Position. */
  function PoseAt(d: Durations, w: seq<Pose>, t: nat): Pose
    requires |w| == |d| + 1
  {
    var i := Active(d, t, |d|);
    BlendPose(w[i], w[i + 1], Fraction(Parts(d, t, i), d[i]))
  }

  function Column(w: seq<Pose>, j: nat): (c: seq<real>)
    requires j < 12
    ensures |c| == |w|
  {
    seq(|w|, i requires 0 <= i < |w| => w[i][j])
  }

  /** The command of one motor, and what a controller writes into all of them. */
  datatype MotorCmd = MotorCmd(mode: int, q: real, dq: real, kp: real, kd: real, tau: real)

  datatype Drive = Drive(mode: int, kp: real, kd: real)

  /** PosStopF and VelStopF, without gains: the motor is not driven. */
  function Idle(mode: int): MotorCmd {
    MotorCmd(mode, 2146000000.0, 16000.0, 0.0, 0.0, 0.0)
  }

  function Command(pose: Pose, g: Drive, j: nat): (c: MotorCmd)
    ensures c.mode == g.mode
  {
    if j < 12 then MotorCmd(g.mode, pose[j], 0.0, g.kp, g.kd, 0.0) else Idle(g.mode)
  }

  /** All twenty motor commands when the legs are driven to a pose; the other eight stay idle. */
  function Driving(pose: Pose, g: Drive): (s: seq<MotorCmd>)
    ensures Held(s, g)
  {
    seq(20, j requires 0 <= j < 20 => Command(pose, g, j))
  }

  function AllIdle(mode: int): (s: seq<MotorCmd>) {
    seq(20, _ => Idle(mode))
  }

  /** The modes of all motors are set, and the motors past the legs are idle. */
  predicate Held(s: seq<MotorCmd>, g: Drive) {
    && |s| == 20 && (forall j :: 0 <= j < 20 ==> s[j].mode == g.mode)
    && (forall j :: 12 <= j < 20 ==> s[j] == Idle(g.mode))
  }

  lemma PoseIsPositions(d: Durations, w: seq<Pose>, t: nat, j: nat)
    requires |w| == |d| + 1 && j < 12
    ensures PoseAt(d, w, t)[j] == Position(d, Column(w, j), t)
  {
  }

  /** percent += 1 / duration, capped at 1. */
  method Advance(percent: real, duration: nat, ghost c: nat) returns (p: real)
    requires duration > 0 && c <= duration && percent == Fraction(c, duration)
    ensures p == Fraction(if c < duration then c + 1 else c, duration)
  {
    FractionStep(c, duration);
    FractionRange(c, duration);
    FractionRange(if c < duration then c + 1 else c, duration);
    p := percent + 1.0 / duration as real;
    p := if p > 1.0 then 1.0 else p;
  }

  /** Write the blend of two poses into the leg commands. */
  method FillBlend(motors: array<MotorCmd>, from: Pose, to: Pose, p: real, g: Drive)
    requires Held(motors[..], g)
    modifies motors
    ensures motors[..] == Driving(BlendPose(from, to, p), g)
  {
    ghost var target := Driving(BlendPose(from, to, p), g);
    for j := 0 to 12
      invariant Held(motors[..], g) && motors[..j] == target[..j]
    {
      motors[j] := motors[j].(q := Blend(from[j], to[j], p), dq := 0.0, kp := g.kp, kd := g.kd, tau := 0.0);
    }
  }

  /** The moving stage is the last one all of whose predecessors are complete. */
  lemma ActiveIsLastReady(d: Durations, t: nat, i: nat)
    requires t > 0 && i < |d| && AllComplete(d, t, i) && (i == |d| - 1 || !Complete(d, t, i))
    ensures Active(d, t, |d|) == i
  {
    if i > 0 {
      assert Complete(d, t, i - 1);
    }
    forall j | i < j < |d| ensures Parts(d, t, j) == 0 {
      StagesInOrder(d, t, j);
    }
    ActiveUnique(d, t, |d|, i);
  }

  lemma {:induction false} ActiveUnique(d: Durations, t: nat, n: nat, i: nat)
    requires i < n <= |d| && (i > 0 ==> Parts(d, t, i) > 0)
    requires forall j :: i < j < n ==> Parts(d, t, j) == 0
    ensures Active(d, t, n) == i
  {
    if i < n - 1 {
      ActiveUnique(d, t, n - 1, i);
    }
  }

  /** Motion starts with the 500th call. */
  function ActiveTicks(motiontime: nat): nat {
    if motiontime < 500 then 0 else motiontime - 499
  }

  /** percent is the progress of stage i, and may be tested for completion. */
  ghost predicate Progress(percent: real, d: Durations, t: nat, i: nat)
    requires i < |d|
  {
    percent == Fraction(Parts(d, t, i), d[i]) &&
    (percent == 1.0 <==> Complete(d, t, i)) && (percent < 1.0 <==> !Complete(d, t, i))
  }

  /** The code that every later stage repeats: when all earlier stages are complete and this one is
      not, or it is the last, advance it and write the blend of its waypoints. */
  method StageTick(motors: array<MotorCmd>, from: Pose, to: Pose, percent: real, ready: bool, last: bool,
      ghost d: Durations, ghost w: seq<Pose>, ghost t: nat, ghost i: nat, duration: nat, g: Drive)
    returns (p: real)
    requires Held(motors[..], g) && |w| == |d| + 1 && i < |d| && w[i] == from && w[i + 1] == to
    requires duration == d[i] && Progress(percent, d, t, i)
    requires (ready <==> AllComplete(d, t + 1, i)) && (last <==> i == |d| - 1)
    requires !ready ==> motors[..] == Driving(PoseAt(d, w, t + 1), g)
    modifies motors
    ensures Held(motors[..], g) && Progress(p, d, t + 1, i)
    ensures last || !ready || !Complete(d, t + 1, i) ==> motors[..] == Driving(PoseAt(d, w, t + 1), g)
  {
    StagesInOrder(d, t, i);
    StagesInOrder(d, t + 1, i);
    p := percent;
    if ready && (percent < 1.0 || last) {
      p := Advance(percent, duration, Parts(d, t, i));
      FillBlend(motors, from, to, p, g);
    }
    if ready && (last || !Complete(d, t + 1, i)) {
      ActiveIsLastReady(d, t + 1, i);
    }
    FractionRange(Parts(d, t + 1, i), duration);
  }

  /** The first stage always advances, and writes unless that completed it. */
  method FirstStageTick(motors: array<MotorCmd>, from: Pose, to: Pose, percent: real,
      ghost d: Durations, ghost w: seq<Pose>, ghost t: nat, duration: nat, g: Drive)
    returns (p: real)
    requires Held(motors[..], g) && |w| == |d| + 1 && |d| > 1 && w[0] == from && w[1] == to
    requires duration == d[0] && Progress(percent, d, t, 0)
    modifies motors
    ensures Held(motors[..], g) && Progress(p, d, t + 1, 0)
    ensures !Complete(d, t + 1, 0) ==> motors[..] == Driving(PoseAt(d, w, t + 1), g)
  {
    StagesInOrder(d, t, 0);
    p := Advance(percent, duration, Parts(d, t, 0));
    FractionRange(Parts(d, t + 1, 0), duration);
    if p < 1.0 {
      FillBlend(motors, from, to, p, g);
      ActiveIsLastReady(d, t + 1, 0);
    }
  }

  /** The four-stage controller of the go2: to target 1, to target 2, hold, to target 3. */
  class Go2Stand {
    const targetPos1: Pose
    const targetPos2: Pose
    const targetPos3: Pose
    const duration1: nat
    const duration2: nat
    const duration3: nat
    const duration4: nat
    const drive := Drive(0x01, 60.0, 5.0)
    const motors: array<MotorCmd>
    var startPos: Pose
    var percent1: real
    var percent2: real
    var percent3: real
    var percent4: real
    var motiontime: nat
    var firstRun: bool

    ghost predicate Positive() {
      duration1 > 0 && duration2 > 0 && duration3 > 0 && duration4 > 0
    }

    ghost function Stages(): Durations
      requires Positive()
    {
      [duration1, duration2, duration3, duration4]
    }

    ghost function Waypoints(start: Pose): seq<Pose> {
      [start, targetPos1, targetPos2, targetPos2, targetPos3]
    }

    /** The legs at the trajectory's pose of active tick t. */
    ghost function Posed(start: Pose, t: nat): seq<MotorCmd>
      requires Positive()
    {
      Driving(PoseAt(Stages(), Waypoints(start), t), drive)
    }

    lemma PosedIs(start: Pose, t: nat, s: seq<MotorCmd>)
      requires Positive() && s == Posed(start, t)
      ensures |s| == 20
      ensures forall j :: 0 <= j < 12 ==>
        s[j]
        == MotorCmd(0x01, Position([duration1, duration2, duration3, duration4],
                                   [start[j], targetPos1[j], targetPos2[j], targetPos2[j], targetPos3[j]], t),
                    0.0, 60.0, 5.0, 0.0)
      ensures forall j :: 12 <= j < 20 ==> s[j] == MotorCmd(0x01, 2146000000.0, 16000.0, 0.0, 0.0, 0.0)
    {
      forall j | 0 <= j < 12
        ensures Column(Waypoints(start), j) == [start[j], targetPos1[j], targetPos2[j], targetPos2[j], targetPos3[j]]
      {
      }
    }

    /** The commands written so far: idle, then driving the legs through the waypoints. */
    ghost predicate Commanded()
      requires Positive()
      reads this, motors
    {
      Held(motors[..], drive) &&
      motors[..] == if motiontime < 500 then AllIdle(drive.mode) else Posed(startPos, ActiveTicks(motiontime))
    }

    ghost predicate Valid()
      reads this, motors
    {
      Positive() && (firstRun <==> motiontime < 500) &&
      AllProgress(ActiveTicks(motiontime)) && Commanded()
    }

    ghost predicate AllProgress(t: nat)
      requires Positive()
      reads this
    {
      var d := Stages();
      && Progress(percent1, d, t, 0) && Progress(percent2, d, t, 1)
      && Progress(percent3, d, t, 2) && Progress(percent4, d, t, 3)
    }

    constructor (t1: Pose, t2: Pose, t3: Pose, d1: nat, d2: nat, d3: nat, d4: nat)
      requires d1 > 0 && d2 > 0 && d3 > 0 && d4 > 0
      ensures Valid() && fresh(motors) && motiontime == 0
      ensures duration1 == d1 && duration2 == d2 && duration3 == d3 && duration4 == d4
      ensures targetPos1 == t1 && targetPos2 == t2 && targetPos3 == t3
    {
      targetPos1, targetPos2, targetPos3 := t1, t2, t3;
      duration1, duration2, duration3, duration4 := d1, d2, d3, d4;
      motors := new MotorCmd[20](_ => Idle(0x01));
      startPos := t1;
      percent1, percent2, percent3, percent4 := 0.0, 0.0, 0.0, 0.0;
      motiontime, firstRun := 0, true;
    }

    /** One tick of the control loop.  measured is the pose in the last state message. */
    method LowCmdWrite(measured: Pose) returns (published: Option<seq<MotorCmd>>)
      requires Valid()
      modifies this, motors
      ensures Valid() && motiontime == old(motiontime) + 1
      ensures startPos == if motiontime == 500 then measured else old(startPos)
      ensures published.None? <==> motiontime < 500
      ensures published.Some? ==> |published.value| == 20
      ensures published.Some? ==> forall j :: 0 <= j < 12 ==>
        published.value[j]
        == MotorCmd(0x01, Position([duration1, duration2, duration3, duration4],
                                   [startPos[j], targetPos1[j], targetPos2[j], targetPos2[j], targetPos3[j]],
                                   motiontime - 499),
                    0.0, 60.0, 5.0, 0.0)
      ensures published.Some? ==> forall j :: 12 <= j < 20 ==>
        published.value[j] == MotorCmd(0x01, 2146000000.0, 16000.0, 0.0, 0.0, 0.0)
    {
      motiontime := motiontime + 1;
      if motiontime < 500 {
        return None;
      }
      if firstRun {
        startPos := measured;
        firstRun := false;
      }
      MoveLegs();
      var commands := motors[..];
      ghost var t := ActiveTicks(motiontime);
      assert commands == Posed(startPos, t) && Held(commands, drive) && t == motiontime - 499;
      PosedIs(startPos, t, commands);
      return Some(commands);
    }

    /** The stages of one active tick. */
    method MoveLegs()
      requires Positive() && Held(motors[..], drive) && motiontime >= 500 && !firstRun
      requires AllProgress(ActiveTicks(motiontime) - 1)
      modifies motors, this`percent1, this`percent2, this`percent3, this`percent4
      ensures AllProgress(ActiveTicks(motiontime)) && motors[..] == Posed(startPos, ActiveTicks(motiontime))
    {
      ghost var d, w, t := Stages(), Waypoints(startPos), ActiveTicks(motiontime) - 1;
      percent1 := FirstStageTick(motors, startPos, targetPos1, percent1, d, w, t, duration1, drive);
      var ready := percent1 == 1.0;
      percent2 := StageTick(motors, targetPos1, targetPos2, percent2, ready, false, d, w, t, 1, duration2, drive);
      ready := ready && percent2 == 1.0;
      percent3 := StageTick(motors, targetPos2, targetPos2, percent3, ready, false, d, w, t, 2, duration3, drive);
      ready := ready && percent3 == 1.0;
      percent4 := StageTick(motors, targetPos2, targetPos3, percent4, ready, true, d, w, t, 3, duration4, drive);
    }
  }

  /** The five-stage controller of the b2, with one more target. */
  class B2Stand {
    const targetPos1: Pose
    const targetPos2: Pose
    const targetPos3: Pose
    const targetPos4: Pose
    const duration1: nat
    const duration2: nat
    const duration3: nat
    const duration4: nat
    const duration5: nat
    const drive := Drive(0x0A, 1000.0, 10.0)
    const motors: array<MotorCmd>
    var startPos: Pose
    var percent1: real
    var percent2: real
    var percent3: real
    var percent4: real
    var percent5: real
    var motiontime: nat
    var firstRun: bool

    ghost predicate Positive() {
      duration1 > 0 && duration2 > 0 && duration3 > 0 && duration4 > 0 && duration5 > 0
    }

    ghost function Stages(): Durations
      requires Positive()
    {
      [duration1, duration2, duration3, duration4, duration5]
    }

    ghost function Waypoints(start: Pose): seq<Pose> {
      [start, targetPos1, targetPos2, targetPos2, targetPos3, targetPos4]
    }

    /** The legs at the trajectory's pose of active tick t. */
    ghost function Posed(start: Pose, t: nat): seq<MotorCmd>
      requires Positive()
    {
      Driving(PoseAt(Stages(), Waypoints(start), t), drive)
    }

    lemma PosedIs(start: Pose, t: nat, s: seq<MotorCmd>)
      requires Positive() && s == Posed(start, t)
      ensures |s| == 20
      ensures forall j :: 0 <= j < 12 ==>
        s[j]
        == MotorCmd(0x0A,
                    Position([duration1, duration2, duration3, duration4, duration5],
                             [start[j], targetPos1[j], targetPos2[j], targetPos2[j], targetPos3[j], targetPos4[j]],
                             t),
                    0.0, 1000.0, 10.0, 0.0)
      ensures forall j :: 12 <= j < 20 ==> s[j] == MotorCmd(0x0A, 2146000000.0, 16000.0, 0.0, 0.0, 0.0)
    {
      forall j | 0 <= j < 12
        ensures Column(Waypoints(start), j)
                == [start[j], targetPos1[j], targetPos2[j], targetPos2[j], targetPos3[j], targetPos4[j]]
      {
      }
    }

    /** The commands written so far: idle, then driving the legs through the waypoints. */
    ghost predicate Commanded()
      requires Positive()
      reads this, motors
    {
      Held(motors[..], drive) &&
      motors[..] == if motiontime < 500 then AllIdle(drive.mode) else Posed(startPos, ActiveTicks(motiontime))
    }

    ghost predicate Valid()
      reads this, motors
    {
      Positive() && (firstRun <==> motiontime < 500) &&
      AllProgress(ActiveTicks(motiontime)) && Commanded()
    }

    ghost predicate AllProgress(t: nat)
      requires Positive()
      reads this
    {
      var d := Stages();
      && Progress(percent1, d, t, 0) && Progress(percent2, d, t, 1) && Progress(percent3, d, t, 2)
      && Progress(percent4, d, t, 3) && Progress(percent5, d, t, 4)
    }

    constructor (t1: Pose, t2: Pose, t3: Pose, t4: Pose, d1: nat, d2: nat, d3: nat, d4: nat, d5: nat)
      requires d1 > 0 && d2 > 0 && d3 > 0 && d4 > 0 && d5 > 0
      ensures Valid() && fresh(motors) && motiontime == 0
      ensures duration1 == d1 && duration2 == d2 && duration3 == d3 && duration4 == d4 && duration5 == d5
      ensures targetPos1 == t1 && targetPos2 == t2 && targetPos3 == t3 && targetPos4 == t4
    {
      targetPos1, targetPos2, targetPos3, targetPos4 := t1, t2, t3, t4;
      duration1, duration2, duration3, duration4, duration5 := d1, d2, d3, d4, d5;
      motors := new MotorCmd[20](_ => Idle(0x0A));
      startPos := t1;
      percent1, percent2, percent3, percent4, percent5 := 0.0, 0.0, 0.0, 0.0, 0.0;
      motiontime, firstRun := 0, true;
    }

    method LowCmdWrite(measured: Pose) returns (published: Option<seq<MotorCmd>>)
      requires Valid()
      modifies this, motors
      ensures Valid() && motiontime == old(motiontime) + 1
      ensures startPos == if motiontime == 500 then measured else old(startPos)
      ensures published.None? <==> motiontime < 500
      ensures published.Some? ==> |published.value| == 20
      ensures published.Some? ==> forall j :: 0 <= j < 12 ==>
        published.value[j]
        == MotorCmd(0x0A,
                    Position([duration1, duration2, duration3, duration4, duration5],
                             [startPos[j], targetPos1[j], targetPos2[j], targetPos2[j], targetPos3[j], targetPos4[j]],
                             motiontime - 499),
                    0.0, 1000.0, 10.0, 0.0)
      ensures published.Some? ==> forall j :: 12 <= j < 20 ==>
        published.value[j] == MotorCmd(0x0A, 2146000000.0, 16000.0, 0.0, 0.0, 0.0)
    {
      motiontime := motiontime + 1;
      if motiontime < 500 {
        return None;
      }
      if firstRun {
        startPos := measured;
        firstRun := false;
      }
      MoveLegs();
      var commands := motors[..];
      ghost var t := ActiveTicks(motiontime);
      assert commands == Posed(startPos, t) && Held(commands, drive) && t == motiontime - 499;
      PosedIs(startPos, t, commands);
      return Some(commands);
    }

    /** The stages of one active tick. */
    method MoveLegs()
      requires Positive() && Held(motors[..], drive) && motiontime >= 500 && !firstRun
      requires AllProgress(ActiveTicks(motiontime) - 1)
      modifies motors, this`percent1, this`percent2, this`percent3, this`percent4, this`percent5
      ensures AllProgress(ActiveTicks(motiontime)) && motors[..] == Posed(startPos, ActiveTicks(motiontime))
    {
      ghost var d, w, t := Stages(), Waypoints(startPos), ActiveTicks(motiontime) - 1;
      percent1 := FirstStageTick(motors, startPos, targetPos1, percent1, d, w, t, duration1, drive);
      var ready := percent1 == 1.0;
      percent2 := StageTick(motors, targetPos1, targetPos2, percent2, ready, false, d, w, t, 1, duration2, drive);
      ready := ready && percent2 == 1.0;
      percent3 := StageTick(motors, targetPos2, targetPos2, percent3, ready, false, d, w, t, 2, duration3, drive);
      ready := ready && percent3 == 1.0;
      percent4 := StageTick(motors, targetPos2, targetPos3, percent4, ready, false, d, w, t, 3, duration4, drive);
      ready := ready && percent4 == 1.0;
      percent5 := StageTick(motors, targetPos3, targetPos4, percent5, ready, true, d, w, t, 4, duration5, drive);
    }
  }
}
