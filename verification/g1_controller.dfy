/** The G1 motion controller: freeze, stand, then follow a learned policy, with joint values
    scattered to and gathered from the motors through an index map.  Floating point is modelled by
    exact reals, and each tick of the two loops is atomic. */
module G1Controller {
  import opened Crc
  import opened CrcDetection
  import opened Wrappers

  const N_ISAAC := 37
  const N_SDK := 29
  const OBS_DIM := 123

  /** Values in policy order, values in motor order, and what the policy observes. */
  type Joints = s: seq<real> | |s| == N_ISAAC witness Zeros(N_ISAAC)
  type Motors = s: seq<real> | |s| == N_SDK witness Zeros(N_SDK)
  type Observation = s: seq<real> | |s| == OBS_DIM witness Zeros(OBS_DIM)
  type Vector = s: seq<real> | |s| == 3 witness [0.0, 0.0, 0.0]
  type Quaternion = s: seq<real> | |s| == 4 witness [1.0, 0.0, 0.0, 0.0]

  /** The joints and motors of a robot: default positions and motor of each policy joint, policy
      joint of each motor (-1 stands for none), and the gains of each motor. */
  datatype Rig = Rig(defaults: Joints, toSdk: seq<int>, toIsaac: seq<int>, kp: Motors, kd: Motors) {

    /** No two joints share a motor: the map has an inverse on the motors it reaches. */
    ghost predicate Valid() {
      && |toSdk| == N_ISAAC && |toIsaac| == N_SDK
      && (forall i :: 0 <= i < N_ISAAC ==> -1 <= toSdk[i] < N_SDK && (toSdk[i] >= 0 ==> toIsaac[toSdk[i]] == i))
      && (forall m :: 0 <= m < N_SDK ==> -1 <= toIsaac[m] < N_ISAAC && (toIsaac[m] >= 0 ==> toSdk[toIsaac[m]] == m))
    }
  }

  type Wired = g: Rig | g.Valid()
    witness Rig(Zeros(N_ISAAC), seq(N_ISAAC, _ => -1), seq(N_SDK, _ => -1), Zeros(N_SDK), Zeros(N_SDK))

  function Zeros(n: nat): (z: seq<real>)
    ensures |z| == n
  {
    seq(n, _ => 0.0)
  }

  const G1_TO_SDK := [
    0, 6, 12, 1, 7, 15, 22, 2, 8, 16, 23, 3, 9, 17, 24, 4, 10, 18, 25, 5, 11, 19, 26,
    -1, -1, -1, -1, -1, -1, -1, -1, -1, -1, -1, -1, -1, -1]

  const G1_TO_ISAAC := [
    0, 3, 7, 11, 15, 19, 1, 4, 8, 12, 16, 20, 2, -1, -1, 5, 9, 13, 17, 21, -1, -1, 6, 10, 14, 18, 22, -1, -1]

  const G1_DEFAULTS := [
    -0.2, -0.2, 0.0, 0.0, 0.0, 0.35, 0.35, 0.0, 0.0, 0.16, -0.16, 0.42, 0.42, 0.0, 0.0, -0.23, -0.23,
    0.87, 0.87, 0.0, 0.0, 0.0, 0.0, 0.0, 0.0, 0.0, 0.0, 0.0, 0.0, 0.0, 0.0, 1.0, 0.0, 0.0, -1.0, 0.52, -0.52]

  const G1_KP := [
    60.0, 60.0, 60.0, 100.0, 40.0, 40.0, 60.0, 60.0, 60.0, 100.0, 40.0, 40.0, 60.0, 40.0, 40.0,
    40.0, 40.0, 40.0, 40.0, 40.0, 40.0, 40.0, 40.0, 40.0, 40.0, 40.0, 40.0, 40.0, 40.0]

  const G1_KD := [
    1.0, 1.0, 1.0, 2.0, 1.0, 1.0, 1.0, 1.0, 1.0, 2.0, 1.0, 1.0, 1.0, 1.0, 1.0,
    1.0, 1.0, 1.0, 1.0, 1.0, 1.0, 1.0, 1.0, 1.0, 1.0, 1.0, 1.0, 1.0, 1.0]

  const G1_RIG := Rig(G1_DEFAULTS, G1_TO_SDK, G1_TO_ISAAC, G1_KP, G1_KD)

  /** The motor map of the G1 is injective on the joints that have a motor. */
  lemma G1IsWired()
    ensures G1_RIG.Valid()
  {
    forall i: nat, m: nat | i < N_ISAAC && m < N_SDK ensures G1_RIG.toSdk[i] == m <==> G1_RIG.toIsaac[m] == i {
      G1MapsAreInverse(i, m);
    }
    forall i | 0 <= i < N_ISAAC ensures -1 <= G1_RIG.toSdk[i] < N_SDK {
      G1JointInRange(i);
    }
    forall m | 0 <= m < N_SDK ensures -1 <= G1_RIG.toIsaac[m] < N_ISAAC {
      G1MotorInRange(m);
    }
  }

  lemma G1MapsAreInverse(i: nat, m: nat)
    requires i < N_ISAAC && m < N_SDK
    ensures G1_TO_SDK[i] == m <==> G1_TO_ISAAC[m] == i
  {
  }

  lemma G1JointInRange(i: nat)
    requires i < N_ISAAC
    ensures -1 <= G1_TO_SDK[i] < N_SDK
  {
  }

  lemma G1MotorInRange(m: nat)
    requires m < N_SDK
    ensures -1 <= G1_TO_ISAAC[m] < N_ISAAC
  {
  }

  lemma MapsAreInverse(g: Wired, i: nat, m: nat)
    requires i < N_ISAAC && m < N_SDK
    ensures g.toSdk[i] == m <==> g.toIsaac[m] == i
  {
  }

  // ---- The state both loops share ----

  datatype Phase = Freeze | Stand | Policy

  datatype MotorState = MotorState(q: Motors, dq: Motors)

  /** The angular velocity in the body frame, the attitude as w, x, y, z, and what the library's square
      root gives for the squared length of RawGravity. */
  datatype ImuState = ImuState(omega: Vector, quat: Quaternion, gravityNorm: real)

  /** A low-level state message, decoded. */
  datatype LowState = LowState(motors: MotorState, imu: ImuState, modeMachine: int)

  /** What a tick of the policy loop finds in the two buffers, and what the policy would answer to
      each observation in that tick. */
  datatype Inputs = Inputs(motors: Option<MotorState>, imu: Option<ImuState>, policy: Observation -> Joints) {
    predicate Ready() {
      motors.Some? && imu.Some?
    }
  }

  datatype Control = Control(phase: Phase, phaseTime: real, freezeQ: Motors, actions: Joints,
                             prevActions: Joints, actionReady: bool)

  function Min(x: real, y: real): real {
    if y < x then y else x
  }

  function Max(x: real, y: real): real {
    if x < y then y else x
  }

  // ---- What the policy sees ----

  /** Entry k before clamping: velocities, gravity, a zero command, then per joint the position
      relative to the default, the velocity and the previous action. */
  function Raw(g: Wired, prev: Joints, ms: MotorState, imu: ImuState, k: nat): real
    requires k < OBS_DIM
  {
    if k < 3 then 0.0
    else if k < 6 then imu.omega[k - 3]
    else if k < 9 then Gravity(imu)[k - 6]
    else if k < 12 then 0.0
    else if k < 12 + N_ISAAC then Gather(g, ms.q, k - 12, g.defaults[k - 12]) - g.defaults[k - 12]
    else if k < 12 + 2 * N_ISAAC then Gather(g, ms.dq, k - 12 - N_ISAAC, 0.0)
    else prev[k - 12 - 2 * N_ISAAC]
  }

  /** The gravity direction in the body frame, before it is scaled to unit length. */
  function RawGravity(q: Quaternion): Vector {
    var w, x, y, z := q[0], q[1], q[2], q[3];
    [2.0 * (x * z + w * y), 2.0 * (y * z - w * x), -1.0 + 2.0 * (w * w + z * z)]
  }

  function Gravity(imu: ImuState): Vector {
    var g, n := RawGravity(imu.quat), imu.gravityNorm;
    if n > 0.000001 then [g[0] / n, g[1] / n, g[2] / n] else g
  }

  /** The value of joint i among the motors, or the fallback of a joint without a motor. */
  function Gather(g: Wired, values: Motors, i: nat, fallback: real): real
    requires i < N_ISAAC
  {
    if g.toSdk[i] >= 0 then values[g.toSdk[i]] else fallback
  }

  function Clamp(v: real): real {
    Max(-100.0, Min(100.0, v))
  }

  function Observe(g: Wired, prev: Joints, ms: MotorState, imu: ImuState): Observation {
    seq(OBS_DIM, k requires 0 <= k < OBS_DIM => Clamp(Raw(g, prev, ms, imu, k)))
  }

  // ---- The gravity direction ----

  function SquaredLength(v: seq<real>): real {
    if v == [] then 0.0 else v[0] * v[0] + SquaredLength(v[1..])
  }

  lemma LengthOfVector(v: Vector)
    ensures SquaredLength(v) == v[0] * v[0] + (v[1] * v[1] + v[2] * v[2])
  {
    assert v[1..][1..] == v[2..] && v[2..][1..] == [];
    assert SquaredLength(v[2..]) == v[2] * v[2] + SquaredLength(v[2..][1..]);
  }

  lemma LengthOfQuaternion(q: Quaternion)
    ensures SquaredLength(q) == q[0] * q[0] + (q[1] * q[1] + (q[2] * q[2] + q[3] * q[3]))
  {
    assert q[1..][1..] == q[2..] && q[1..][2..] == q[3..];
    LengthOfVector(q[1..]);
  }

  /** A unit attitude gives a gravity vector of unit length. */
  lemma GravityHasUnitLength(q: Quaternion)
    requires SquaredLength(q) == 1.0
    ensures SquaredLength(RawGravity(q)) == 1.0
  {
    var w, x, y, z := q[0], q[1], q[2], q[3];
    LengthOfQuaternion(q);
    LengthOfVector(RawGravity(q));
    UnitIdentity(w, x, y, z, x * x + y * y, w * w + z * z);
  }

  lemma UnitIdentity(w: real, x: real, y: real, z: real, s: real, t: real)
    requires s == x * x + y * y && t == w * w + z * z && s + t == 1.0
    ensures var a, b, c := 2.0 * (x * z + w * y), 2.0 * (y * z - w * x), -1.0 + 2.0 * t;
            a * a + (b * b + c * c) == 1.0
  {
    var a, b, c := 2.0 * (x * z + w * y), 2.0 * (y * z - w * x), -1.0 + 2.0 * t;
    CrossTerms(w, x, y, z);
    assert a * a + b * b == 4.0 * (s * t);
    assert c == 1.0 - 2.0 * s && t == 1.0 - s;
    Squares(s);
  }

  lemma CrossTerms(w: real, x: real, y: real, z: real)
    ensures var a, b := 2.0 * (x * z + w * y), 2.0 * (y * z - w * x);
            a * a + b * b == 4.0 * ((x * x + y * y) * (w * w + z * z))
  {
  }

  lemma Squares(s: real)
    ensures 4.0 * (s * (1.0 - s)) + (1.0 - 2.0 * s) * (1.0 - 2.0 * s) == 1.0
  {
  }

  /** So the scaling changes nothing, and neither does the clamp: the policy sees the vector itself. */
  lemma GravityIsObserved(g: Wired, prev: Joints, ms: MotorState, imu: ImuState, k: nat)
    requires SquaredLength(imu.quat) == 1.0 && k < 3
    requires imu.gravityNorm >= 0.0 && imu.gravityNorm * imu.gravityNorm == SquaredLength(RawGravity(imu.quat))
    ensures Observe(g, prev, ms, imu)[6 + k] == RawGravity(imu.quat)[k]
    ensures imu.quat == [1.0, 0.0, 0.0, 0.0] ==> RawGravity(imu.quat) == [0.0, 0.0, 1.0]
  {
    var v := RawGravity(imu.quat);
    GravityHasUnitLength(imu.quat);
    UnitRoot(imu.gravityNorm);
    LengthOfVector(v);
    UnitEntries(v[0], v[1], v[2]);
    ScaledByOne(imu, k);
    ObservedGravity(g, prev, ms, imu, k);
  }

  lemma ScaledByOne(imu: ImuState, k: nat)
    requires imu.gravityNorm == 1.0 && k < 3
    ensures Gravity(imu)[k] == RawGravity(imu.quat)[k]
  {
    var v := RawGravity(imu.quat);
    assert Gravity(imu)[k] == v[k] / 1.0 == v[k];
  }

  lemma ObservedGravity(g: Wired, prev: Joints, ms: MotorState, imu: ImuState, k: nat)
    requires k < 3
    ensures Observe(g, prev, ms, imu)[6 + k] == Clamp(Gravity(imu)[k])
  {
  }

  lemma UnitRoot(n: real)
    requires n >= 0.0 && n * n == 1.0
    ensures n == 1.0
  {
    assert n > 1.0 ==> n * n > 1.0;
    assert n < 1.0 ==> n * n <= n;
  }

  lemma UnitEntries(a: real, b: real, c: real)
    requires a * a + (b * b + c * c) == 1.0
    ensures -1.0 <= a <= 1.0 && -1.0 <= b <= 1.0 && -1.0 <= c <= 1.0
  {
    Square(a);
    Square(b);
    Square(c);
  }

  lemma Square(a: real)
    ensures a * a >= 0.0 && (a * a <= 1.0 ==> -1.0 <= a <= 1.0)
  {
    assert a > 1.0 ==> a * a > 1.0;
    assert a < -1.0 ==> a * a > 1.0;
  }

  lemma LengthOfScaled(a: real, b: real, c: real, n: real, s: real)
    requires n > 0.0 && s == n * n && s == SquaredLength([a, b, c])
    ensures SquaredLength([a / n, b / n, c / n]) == 1.0
  {
    var p, x := SquareOfQuotient(a, n, s);
    var q, y := SquareOfQuotient(b, n, s);
    var r, z := SquareOfQuotient(c, n, s);
    LengthOfThree(a, b, c, x, y, z);
    LengthOfThree(a / n, b / n, c / n, p, q, r);
    SumOfQuotients(p, q, r, s, x, y, z);
  }

  lemma LengthOfThree(a: real, b: real, c: real, p: real, q: real, r: real)
    requires p == a * a && q == b * b && r == c * c
    ensures SquaredLength([a, b, c]) == p + (q + r)
  {
    LengthOfVector([a, b, c]);
  }

  lemma SquareOfQuotient(x: real, n: real, s: real) returns (p: real, y: real)
    requires n > 0.0 && s == n * n
    ensures p == (x / n) * (x / n) && y == x * x && s > 0.0 && p * s == y
  {
    var a := x / n;
    p, y := a * a, x * x;
    var t := a * n;
    TimesQuotient(x, n);
    assert t == x;
    FourFactors(a, n, p, s, t);
    PositiveSquare(n, s);
  }

  lemma PositiveSquare(n: real, s: real)
    requires n > 0.0 && s == n * n
    ensures s > 0.0
  {
    assert s / n == n;
  }

  lemma TimesQuotient(x: real, n: real)
    requires n > 0.0
    ensures (x / n) * n == x
  {
  }

  lemma FourFactors(a: real, n: real, p: real, s: real, t: real)
    requires p == a * a && s == n * n && t == a * n
    ensures p * s == t * t
  {
  }

  lemma SumOfQuotients(p: real, q: real, r: real, s: real, x: real, y: real, z: real)
    requires s > 0.0 && p * s == x && q * s == y && r * s == z && x + (y + z) == s
    ensures p + (q + r) == 1.0
  {
    assert (p + (q + r)) * s == p * s + (q * s + r * s);
  }

  /** Whatever the attitude, a vector longer than 10^-6 is scaled to unit length and a shorter one is
      left as it is. */
  lemma GravityIsScaled(imu: ImuState)
    requires imu.gravityNorm >= 0.0 && imu.gravityNorm * imu.gravityNorm == SquaredLength(RawGravity(imu.quat))
    ensures if imu.gravityNorm > 0.000001 then SquaredLength(Gravity(imu)) == 1.0
            else Gravity(imu) == RawGravity(imu.quat)
  {
    var v := RawGravity(imu.quat);
    if imu.gravityNorm > 0.000001 {
      var n := imu.gravityNorm;
      assert v == [v[0], v[1], v[2]];
      LengthOfScaled(v[0], v[1], v[2], n, n * n);
    }
  }

  /** v kept within 100 of zero. */
  ghost predicate IsClamped(v: real, y: real) {
    -100.0 <= y <= 100.0 && (v > 100.0 ==> y == 100.0) && (v < -100.0 ==> y == -100.0) &&
    (-100.0 <= v <= 100.0 ==> y == v)
  }

  /** The entries before the joints: no linear velocity, the gyroscope, gravity and no command. */
  lemma HeadOfObservation(g: Wired, prev: Joints, ms: MotorState, imu: ImuState, k: nat)
    requires k < 12
    ensures var o := Observe(g, prev, ms, imu);
            && (k < 3 || k >= 9 ==> o[k] == 0.0)
            && (3 <= k < 6 ==> IsClamped(imu.omega[k - 3], o[k]))
            && (6 <= k < 9 ==> IsClamped(Gravity(imu)[k - 6], o[k]))
  {
  }

  // ---- The policy loop ----

  /** One tick of the policy loop. */
  function Tick(g: Wired, c: Control, s: Inputs): Control {
    if !s.Ready() then c
    else
      var time := c.phaseTime + 1.0 / 50.0;
      match c.phase
      case Freeze =>
        if time > 2.0 then c.(phase := Stand, phaseTime := 0.0, freezeQ := s.motors.value.q) else c.(phaseTime := time)
      case Stand =>
        if time > 3.0 then c.(phase := Policy, phaseTime := 0.0) else c.(phaseTime := time)
      case Policy =>
        var a := s.policy(Observe(g, c.prevActions, s.motors.value, s.imu.value));
        c.(phaseTime := time, actions := a, prevActions := a, actionReady := true)
  }

  const ZERO_JOINTS: Joints := Zeros(N_ISAAC)
  const ZERO_MOTORS: Motors := Zeros(N_SDK)
  const INITIAL := Control(Freeze, 0.0, ZERO_MOTORS, ZERO_JOINTS, ZERO_JOINTS, false)

  /** The state after the ticks that saw these sensor values. */
  function After(g: Wired, run: seq<Inputs>): Control {
    if |run| == 0 then INITIAL else Tick(g, After(g, run[..|run| - 1]), run[|run| - 1])
  }

  /** The ticks in which there was data; the others do nothing. */
  function Ready(run: seq<Inputs>): seq<Inputs> {
    if |run| == 0 then []
    else Ready(run[..|run| - 1]) + if run[|run| - 1].Ready() then [run[|run| - 1]] else []
  }

  /** The motor positions that the n-th tick with data saw. */
  ghost predicate MeasuredAt(run: seq<Inputs>, n: nat, q: Motors) {
    n < |Ready(run)| && Ready(run)[n].motors.Some? && Ready(run)[n].motors.value.q == q
  }

  /** Phases only move forward, and when: the hundred-and-first tick with data ends the freeze
      and records its pose, and 151 ticks later the policy takes over. */
  lemma {:induction false} PhasesOfRun(g: Wired, run: seq<Inputs>)
    ensures var n, c := |Ready(run)|, After(g, run);
            c.phase == (if n < 101 then Freeze else if n < 252 then Stand else Policy)
    ensures var n, c := |Ready(run)|, After(g, run);
            c.phaseTime == (n - (if n < 101 then 0 else if n < 252 then 101 else 252)) as real / 50.0
    ensures var n, c := |Ready(run)|, After(g, run);
            n >= 101 ==> MeasuredAt(run, 100, c.freezeQ)
    ensures var n, c := |Ready(run)|, After(g, run);
            c.actionReady == (n >= 253) && c.prevActions == c.actions && (n < 253 ==> c.actions == ZERO_JOINTS)
  {
    if |run| > 0 {
      PhasesOfRun(g, run[..|run| - 1]);
    }
  }

  // ---- The command loop ----

  function Blend(start: real, end: real, alpha: real): real {
    start + alpha * (end - start)
  }

  /** Where joint i is sent in its present phase, for a motor now measured at q. */
  function JointTarget(g: Wired, c: Control, i: nat, start: real, q: real): real
    requires i < N_ISAAC
  {
    match c.phase
    case Freeze => q
    case Stand => Blend(start, g.defaults[i], Min(c.phaseTime / 3.0, 1.0))
    case Policy =>
      if c.actionReady then
        Max(g.defaults[i] - 1.5, Min(g.defaults[i] + 1.5, c.actions[i] * 0.5 + g.defaults[i]))
      else g.defaults[i]
  }

  /** The position commanded to motor m: a motor no joint drives holds its measured position. */
  function Target(g: Wired, c: Control, q: Motors, m: nat): real
    requires m < N_SDK
  {
    if g.toIsaac[m] >= 0 then JointTarget(g, c, g.toIsaac[m], c.freezeQ[m], q[m]) else q[m]
  }

  datatype MotorCmd = MotorCmd(mode: int, q: real, dq: real, kp: real, kd: real, tau: real)

  /** modePr 0 selects pitch and roll. */
  datatype LowCmd = LowCmd(modePr: int, modeMachine: int, motors: seq<MotorCmd>)

  function Command(g: Wired, c: Control, q: Motors): (cmd: seq<MotorCmd>) {
    seq(N_SDK, m requires 0 <= m < N_SDK => MotorCmd(1, Target(g, c, q, m), 0.0, g.kp[m], g.kd[m], 0.0))
  }

  // ---- The stand-up is smooth ----

  function Abs(x: real): (y: real)
    ensures y >= 0.0
  {
    if x < 0.0 then -x else x
  }

  predicate Between(x: real, a: real, b: real) {
    (a <= x <= b) || (b <= x <= a)
  }

  /** Part k of 150 of the way from one position to another. */
  function Part(start: real, end: real, k: nat): real {
    Blend(start, end, if k < 150 then k as real / 150.0 else 1.0)
  }

  lemma PartsAreEqual(start: real, end: real, k: nat)
    requires k < 150
    ensures Part(start, end, 0) == start && Part(start, end, 150) == end
    ensures Part(start, end, k + 1) - Part(start, end, k) == (end - start) / 150.0
    ensures Between(Part(start, end, k), start, end)
  {
    var d, a := end - start, k as real / 150.0;
    assert (k + 1) as real / 150.0 == a + 1.0 / 150.0;
    Distribute(a, 1.0 / 150.0, d);
    Distribute(a, 1.0 - a, d);
    ProductSign(a, d);
    ProductSign(1.0 - a, d);
  }

  lemma Distribute(a: real, b: real, d: real)
    ensures (a + b) * d == a * d + b * d
  {
  }

  lemma ProductSign(a: real, d: real)
    requires a >= 0.0
    ensures if d >= 0.0 then a * d >= 0.0 else a * d <= 0.0
  {
  }

  /** In every run, whatever is measured: a driven motor holds until tick 101; from the pose of that
      tick it is sent to the default in 150 equal parts; the policy's first target is the default
      too; and from then on the target is within 1.5 of it. */
  lemma TargetOfRun(g: Wired, run: seq<Inputs>, q: Motors, m: nat)
    requires m < N_SDK && g.toIsaac[m] >= 0
    ensures var n, c := |Ready(run)|, After(g, run);
            && (n < 101 ==> Target(g, c, q, m) == q[m])
            && (101 <= n <= 252 ==> MeasuredAt(run, 100, c.freezeQ)
                                    && Target(g, c, q, m) == Part(c.freezeQ[m], g.defaults[g.toIsaac[m]], n - 101))
            && (n >= 251 ==> Abs(Target(g, c, q, m) - g.defaults[g.toIsaac[m]]) <= 1.5)
  {
    PhasesOfRun(g, run);
    var n, c := |Ready(run)|, After(g, run);
    var start, end := c.freezeQ[m], g.defaults[g.toIsaac[m]];
    PartsAreEqual(start, end, 0);
    if 101 <= n < 252 {
      assert Min(c.phaseTime / 3.0, 1.0) == if n - 101 < 150 then (n - 101) as real / 150.0 else 1.0;
    } else {
      assert n >= 252 ==> Part(start, end, n - 101) == end;
    }
  }

  /** A tick of the policy loop changes the target of a driven motor by exactly a 150th of the way
      while it stands up, and not at all at the change to the policy. */
  lemma StandUpIsSmooth(g: Wired, run: seq<Inputs>, s: Inputs, q: Motors, q': Motors, m: nat)
    requires m < N_SDK && g.toIsaac[m] >= 0 && s.Ready()
    ensures var n, c, c' := |Ready(run)|, After(g, run), After(g, run + [s]);
            && (n == 100 ==> Target(g, c', q', m) == s.motors.value.q[m])
            && (101 <= n <= 250 ==> Target(g, c', q', m) - Target(g, c, q, m)
                                    == (g.defaults[g.toIsaac[m]] - c.freezeQ[m]) / 150.0)
            && (n == 251 ==> Target(g, c', q', m) == Target(g, c, q, m) == g.defaults[g.toIsaac[m]])
  {
    var n, c, c' := |Ready(run)|, After(g, run), After(g, run + [s]);
    var start, end := c.freezeQ[m], g.defaults[g.toIsaac[m]];
    NextTick(g, run, s);
    TargetOfRun(g, run, q, m);
    TargetOfRun(g, run + [s], q', m);
    if 101 <= n <= 250 {
      PartsAreEqual(start, end, n - 101);
    } else {
      PartsAreEqual(c'.freezeQ[m], end, 0);
    }
  }

  lemma NextTick(g: Wired, run: seq<Inputs>, s: Inputs)
    requires s.Ready()
    ensures |Ready(run + [s])| == |Ready(run)| + 1
    ensures var n, c, c' := |Ready(run)|, After(g, run), After(g, run + [s]);
            c'.freezeQ == if n == 100 then s.motors.value.q else c.freezeQ
  {
    assert (run + [s])[..|run|] == run;
    PhasesOfRun(g, run);
  }

  lemma ObservedJoint(g: Wired, prev: Joints, ms: MotorState, imu: ImuState, i: nat)
    requires i < N_ISAAC
    ensures var m, o := g.toSdk[i], Observe(g, prev, ms, imu);
            && (forall k :: 0 <= k < OBS_DIM ==> -100.0 <= o[k] <= 100.0)
            && (if m >= 0 then IsClamped(ms.q[m] - g.defaults[i], o[12 + i]) else o[12 + i] == 0.0)
            && (if m >= 0 then IsClamped(ms.dq[m], o[49 + i]) else o[49 + i] == 0.0)
            && IsClamped(prev[i], o[86 + i])
  {
  }

  /** Once the policy is in charge each tick takes its answer to an observation that holds, for every
      joint, its offset from the default, its velocity and the action of the tick before, clamped. */
  lemma PolicyActsOnObservation(g: Wired, run: seq<Inputs>, s: Inputs, i: nat)
    requires i < N_ISAAC && s.Ready() && |Ready(run)| >= 252
    ensures var c, m, ms := After(g, run), g.toSdk[i], s.motors.value;
            var o := Observe(g, c.prevActions, ms, s.imu.value);
            && After(g, run + [s]).actions == s.policy(o)
            && (forall k :: 0 <= k < OBS_DIM ==> -100.0 <= o[k] <= 100.0)
            && (if m >= 0 then IsClamped(ms.q[m] - g.defaults[i], o[12 + i]) else o[12 + i] == 0.0)
            && (if m >= 0 then IsClamped(ms.dq[m], o[49 + i]) else o[49 + i] == 0.0)
            && IsClamped(c.actions[i], o[86 + i])
  {
    ObservedJoint(g, After(g, run).prevActions, s.motors.value, s.imu.value, i);
    assert (run + [s])[..|run|] == run;
    PhasesOfRun(g, run);
  }

  // ---- Scatter and gather ----

  /** What joint i observes once every motor is where the policy sent it. */
  lemma GatherUndoesScatter(g: Wired, c: Control, ms: MotorState, imu: ImuState, q: Motors, i: nat)
    requires i < N_ISAAC && c.phase == Policy
    requires forall m :: 0 <= m < N_SDK ==> ms.q[m] == Target(g, c, q, m)
    ensures Observe(g, c.prevActions, ms, imu)[12 + i]
            == if g.toSdk[i] >= 0 && c.actionReady then Max(-1.5, Min(1.5, c.actions[i] * 0.5)) else 0.0
  {
    if g.toSdk[i] >= 0 {
      MapsAreInverse(g, i, g.toSdk[i]);
    }
  }

  /** The action that asks for twice what is observed sends a motor where it is, exactly if that
      is within the safety limit. */
  lemma ScatterUndoesGather(g: Wired, c: Control, ms: MotorState, imu: ImuState, m: nat)
    requires m < N_SDK && c.phase == Policy && c.actionReady
    requires forall i :: 0 <= i < N_ISAAC ==> c.actions[i] == 2.0 * Observe(g, c.prevActions, ms, imu)[12 + i]
    ensures Target(g, c, ms.q, m) == ms.q[m] <==>
            (g.toIsaac[m] >= 0 ==> Abs(ms.q[m] - g.defaults[g.toIsaac[m]]) <= 1.5)
  {
    if g.toIsaac[m] >= 0 {
      MapsAreInverse(g, g.toIsaac[m], m);
    }
  }

  // ---- The controller ----

  class Controller {
    const rig: Wired
    var phase: Phase
    var phaseTime: real
    var freezeQ: Motors
    const obs: array<real>
    const actions: array<real>
    var prevActions: Joints
    var actionReady: bool
    var motorBuf: Option<MotorState>
    var imuBuf: Option<ImuState>
    var modeMachine: int

    ghost predicate Valid()
      reads this
    {
      obs.Length == OBS_DIM && actions.Length == N_ISAAC && obs != actions
    }

    ghost function State(): Control
      reads this, actions
      requires Valid()
    {
      Control(phase, phaseTime, freezeQ, actions[..], prevActions, actionReady)
    }

    constructor (rig: Wired)
      ensures Valid() && fresh(obs) && fresh(actions) && this.rig == rig && State() == INITIAL
      ensures motorBuf == None && imuBuf == None && modeMachine == 0
      ensures phase == Freeze && phaseTime == 0.0 && !actionReady
      ensures forall i :: 0 <= i < N_ISAAC ==> actions[i] == prevActions[i] == 0.0
    {
      this.rig := rig;
      phase, phaseTime, freezeQ := Freeze, 0.0, ZERO_MOTORS;
      obs := new real[OBS_DIM](_ => 0.0);
      actions := new real[N_ISAAC](_ => 0.0);
      prevActions, actionReady := ZERO_JOINTS, false;
      motorBuf, imuBuf, modeMachine := None, None, 0;
      new;
      assert actions[..] == ZERO_JOINTS;
    }

    /** The subscriber callback, on the words of a message and what they decode to: a message whose
        checksum is wrong changes nothing. */
    method OnLowState(message: array<Word>, state: LowState)
      requires Valid() && message.Length > 0
      modifies this`motorBuf, this`imuBuf, this`modeMachine
      ensures Accepts(message[..]) ==>
                motorBuf == Some(state.motors) && imuBuf == Some(state.imu) && modeMachine == state.modeMachine
      ensures !Accepts(message[..]) ==>
                motorBuf == old(motorBuf) && imuBuf == old(imuBuf) && modeMachine == old(modeMachine)
    {
      var len := message.Length - 1;
      var crc := Crc32DataShifting(message, len);
      assert message[..][..len] == message[..len];
      if message[len] != crc {
        return;
      }
      motorBuf := Some(state.motors);
      imuBuf := Some(state.imu);
      modeMachine := state.modeMachine;
    }

    method BuildObs(ms: MotorState, imu: ImuState)
      requires Valid()
      modifies obs
      ensures obs[..] == Observe(rig, prevActions, ms, imu)
    {
      BuildHead(ms, imu);
      for i := 0 to N_ISAAC
        invariant forall k :: 0 <= k < 12 + i ==> obs[k] == Raw(rig, prevActions, ms, imu, k)
      {
        var sdk := rig.toSdk[i];
        var q := if sdk >= 0 then ms.q[sdk] else rig.defaults[i];
        obs[12 + i] := q - rig.defaults[i];
      }
      for i := 0 to N_ISAAC
        invariant forall k :: 0 <= k < 12 + N_ISAAC + i ==> obs[k] == Raw(rig, prevActions, ms, imu, k)
      {
        var sdk := rig.toSdk[i];
        obs[12 + N_ISAAC + i] := if sdk >= 0 then ms.dq[sdk] else 0.0;
      }
      for i := 0 to N_ISAAC
        invariant forall k :: 0 <= k < 12 + 2 * N_ISAAC + i ==> obs[k] == Raw(rig, prevActions, ms, imu, k)
      {
        obs[12 + 2 * N_ISAAC + i] := prevActions[i];
      }
      ClampObs();
    }

    /** The entries before the joints. */
    method BuildHead(ms: MotorState, imu: ImuState)
      requires Valid()
      modifies obs
      ensures forall k :: 0 <= k < 12 ==> obs[k] == Raw(rig, prevActions, ms, imu, k)
    {
      obs[0], obs[1], obs[2] := 0.0, 0.0, 0.0;
      obs[3], obs[4], obs[5] := imu.omega[0], imu.omega[1], imu.omega[2];
      FillGravity(imu);
      obs[9], obs[10], obs[11] := 0.0, 0.0, 0.0;
    }

    method FillGravity(imu: ImuState)
      requires Valid()
      modifies obs
      ensures [obs[6], obs[7], obs[8]] == Gravity(imu)
      ensures forall k :: 0 <= k < 6 ==> obs[k] == old(obs[k])
    {
      var w, x, y, z := imu.quat[0], imu.quat[1], imu.quat[2], imu.quat[3];
      obs[6] := 2.0 * (x * z + w * y);
      obs[7] := 2.0 * (y * z - w * x);
      obs[8] := -1.0 + 2.0 * (w * w + z * z);
      assert obs[6] == RawGravity(imu.quat)[0];
      assert obs[7] == RawGravity(imu.quat)[1];
      assert obs[8] == RawGravity(imu.quat)[2];
      var gn := imu.gravityNorm;
      if gn > 0.000001 {
        obs[6], obs[7], obs[8] := obs[6] / gn, obs[7] / gn, obs[8] / gn;
      }
    }

    method ClampObs()
      requires Valid()
      modifies obs
      ensures forall k :: 0 <= k < OBS_DIM ==> obs[k] == Clamp(old(obs[k]))
    {
      for k := 0 to OBS_DIM
        invariant forall j :: 0 <= j < OBS_DIM ==> obs[j] == if j < k then Clamp(old(obs[j])) else old(obs[j])
      {
        obs[k] := Clamp(obs[k]);
      }
    }

    /** One tick of the policy loop. */
    method PolicyLoop(policy: Observation -> Joints)
      requires Valid()
      modifies this`phase, this`phaseTime, this`freezeQ, this`prevActions, this`actionReady, obs, actions
      ensures Valid() && State() == Tick(rig, old(State()), Inputs(motorBuf, imuBuf, policy))
    {
      if motorBuf.None? || imuBuf.None? {
        return;
      }
      phaseTime := phaseTime + 1.0 / 50.0;
      match phase {
        case Freeze =>
          if phaseTime > 2.0 {
            freezeQ := motorBuf.value.q;
            phase, phaseTime := Stand, 0.0;
          }
        case Stand =>
          if phaseTime > 3.0 {
            phase, phaseTime := Policy, 0.0;
          }
        case Policy =>
          BuildObs(motorBuf.value, imuBuf.value);
          var out := policy(obs[..]);
          for i := 0 to N_ISAAC
            invariant forall k :: 0 <= k < i ==> actions[k] == out[k]
            modifies actions
          {
            actions[i] := out[i];
          }
          assert actions[..] == out;
          prevActions := actions[..];
          actionReady := true;
      }
    }

    /** One tick of the command loop: the command to publish, if motor data has arrived. */
    method CommandLoop() returns (published: Option<LowCmd>)
      requires Valid()
      ensures published.None? <==> motorBuf.None?
      ensures published.Some? ==>
        published.value.modePr == 0 && published.value.modeMachine == modeMachine && |published.value.motors| == N_SDK
      ensures published.Some? ==> forall m :: 0 <= m < N_SDK ==>
        published.value.motors[m]
        == MotorCmd(1, Target(rig, State(), motorBuf.value.q, m), 0.0, rig.kp[m], rig.kd[m], 0.0)
    {
      if motorBuf.None? {
        return None;
      }
      var q := motorBuf.value.q;
      var cmd := new MotorCmd[N_SDK](m requires 0 <= m < N_SDK => MotorCmd(1, q[m], 0.0, rig.kp[m], rig.kd[m], 0.0));
      if phase == Freeze {
        for m := 0 to N_SDK
          invariant forall k :: 0 <= k < N_SDK ==> cmd[k] == MotorCmd(1, q[k], 0.0, rig.kp[k], rig.kd[k], 0.0)
        {
          cmd[m] := cmd[m].(q := q[m]);
        }
      } else if phase == Stand {
        ScatterStand(q, cmd);
      } else {
        ScatterPolicy(q, cmd);
      }
      assert cmd[..] == Command(rig, State(), q);
      return Some(LowCmd(0, modeMachine, cmd[..]));
    }

    /** The motors of the joints below i have their targets, the others hold. */
    ghost predicate SentUpTo(q: Motors, cmd: array<MotorCmd>, i: nat)
      requires Valid()
      reads this, actions, cmd
    {
      cmd.Length == N_SDK &&
      forall m :: 0 <= m < N_SDK ==>
                    cmd[m] == MotorCmd(1, if rig.toIsaac[m] < i then Target(rig, State(), q, m) else q[m],
                                       0.0, rig.kp[m], rig.kd[m], 0.0)
    }

    /** Interpolates every joint that has a motor from the frozen pose to the default pose. */
    method ScatterStand(q: Motors, cmd: array<MotorCmd>)
      requires Valid() && phase == Stand && SentUpTo(q, cmd, 0)
      modifies cmd
      ensures SentUpTo(q, cmd, N_ISAAC)
    {
      var alpha := Min(phaseTime / 3.0, 1.0);
      for i := 0 to N_ISAAC
        invariant SentUpTo(q, cmd, i)
      {
        MotorOf(rig, i);
        var sdk := rig.toSdk[i];
        if sdk >= 0 {
          var start := freezeQ[sdk];
          var end := rig.defaults[i];
          cmd[sdk] := cmd[sdk].(q := start + alpha * (end - start));
        }
      }
    }

    /** Sends every joint that has a motor to the default or, with an action, to its clipped target. */
    method ScatterPolicy(q: Motors, cmd: array<MotorCmd>)
      requires Valid() && phase == Policy && SentUpTo(q, cmd, 0)
      modifies cmd
      ensures SentUpTo(q, cmd, N_ISAAC)
    {
      if !actionReady {
        for i := 0 to N_ISAAC
          invariant SentUpTo(q, cmd, i)
        {
          MotorOf(rig, i);
          var sdk := rig.toSdk[i];
          if sdk >= 0 {
            cmd[sdk] := cmd[sdk].(q := rig.defaults[i]);
          }
        }
      } else {
        for i := 0 to N_ISAAC
          invariant SentUpTo(q, cmd, i)
        {
          MotorOf(rig, i);
          var sdk := rig.toSdk[i];
          if sdk >= 0 {
            var target := actions[i] * 0.5 + rig.defaults[i];
            target := Max(rig.defaults[i] - 1.5, Min(rig.defaults[i] + 1.5, target));
            cmd[sdk] := cmd[sdk].(q := target);
          }
        }
      }
    }
  }

  lemma MotorOf(g: Wired, i: nat)
    requires i < N_ISAAC
    ensures forall m :: 0 <= m < N_SDK ==> (g.toSdk[i] == m <==> g.toIsaac[m] == i)
  {
  }
}
