/** The damping / stand / control machine of the state-machine example, driven by edge-detected
    gamepad buttons.  Floating point is modelled by exact reals; the user controller's joint
    targets and the gravity estimate are inputs. */
module StateMachine {

  datatype Mode = DAMPING | STAND | CTRL

  // ---- Buttons ----

  datatype ButtonState = ButtonState(pressed: bool, onPress: bool, onRelease: bool)

  const RELEASED := ButtonState(false, false, false)

  function Updated(b: ButtonState, state: bool): ButtonState {
    ButtonState(state, state && !b.pressed, !state && b.pressed)
  }

  function Fed(inputs: seq<bool>): ButtonState {
    if inputs == [] then RELEASED else Updated(Fed(inputs[..|inputs| - 1]), inputs[|inputs| - 1])
  }

  /** A press event is exactly a change from up to down between two consecutive samples. */
  lemma {:induction false} PressIsRisingEdge(inputs: seq<bool>)
    requires inputs != []
    ensures var k := |inputs| - 1;
      var was := k > 0 && inputs[k - 1];
      Fed(inputs) == ButtonState(inputs[k], inputs[k] && !was, !inputs[k] && was)
  {
    var k := |inputs| - 1;
    if k > 0 {
      assert inputs[..k][..k - 1] == inputs[..k - 1];
      PressIsRisingEdge(inputs[..k]);
    }
  }

  class Button {
    var pressed: bool
    var onPress: bool
    var onRelease: bool

    ghost function Value(): ButtonState
      reads this
    {
      ButtonState(pressed, onPress, onRelease)
    }

    constructor ()
      ensures Value() == RELEASED && !pressed && !onPress && !onRelease
    {
      pressed, onPress, onRelease := false, false, false;
    }

    method Update(state: bool)
      modifies this
      ensures Value() == Updated(old(Value()), state)
      ensures pressed == state && onPress == (state && !old(pressed)) && onRelease == (!state && old(pressed))
    {
      onPress := if state then state != pressed else false;
      onRelease := if state then false else state != pressed;
      pressed := state;
    }
  }

  // ---- The machine ----

  datatype Machine = Machine(mode: Mode, pdRatio: real)

  function Stopped(m: Machine): Machine {
    Machine(DAMPING, 0.0)
  }

  function Stood(m: Machine): Machine {
    m.(mode := STAND)
  }

  predicate MayControl(m: Machine) {
    m.mode == STAND && m.pdRatio > 0.95
  }

  function Clamp(x: real): real {
    if x < 0.0 then 0.0 else if x > 1.0 then 1.0 else x
  }

  function Ramped(m: Machine, delta: real, up: bool): Machine {
    if m.mode == STAND then m.(pdRatio := Clamp(if up then m.pdRatio + delta else m.pdRatio - delta)) else m
  }

  class SimpleStateMachine {
    var state: Mode
    var pdRatio: real
    const deltaPd: real

    ghost function Value(): Machine
      reads this
    {
      Machine(state, pdRatio)
    }

    constructor (pdRatioInit: real, deltaPd: real)
      ensures Value() == Machine(STAND, pdRatioInit) && this.deltaPd == deltaPd
    {
      state, pdRatio, this.deltaPd := STAND, pdRatioInit, deltaPd;
    }

    method Stop() returns (ok: bool)
      modifies this
      ensures ok && Value() == Stopped(old(Value())) && state == DAMPING && pdRatio == 0.0
    {
      state := DAMPING;
      pdRatio := 0.0;
      return true;
    }

    method Stand() returns (ok: bool)
      modifies this
      ensures ok == (old(state) != STAND) && Value() == Stood(old(Value()))
      ensures state == STAND && pdRatio == old(pdRatio)
    {
      if state == DAMPING || state == CTRL {
        state := STAND;
        return true;
      } else {
        return false;
      }
    }

    method Ctrl() returns (ok: bool)
      modifies this
      ensures ok == MayControl(old(Value())) == (old(state) == STAND && old(pdRatio) > 0.95)
      ensures Value() == if ok then old(Value()).(mode := CTRL) else old(Value())
    {
      if state == STAND && pdRatio > 0.95 {
        state := CTRL;
        return true;
      } else {
        return false;
      }
    }

    method Standing(up: bool)
      modifies this
      ensures Value() == Ramped(old(Value()), deltaPd, up) && state == old(state)
      ensures var x := if up then old(pdRatio) + deltaPd else old(pdRatio) - deltaPd;
              pdRatio == if state != STAND then old(pdRatio) else if x < 0.0 then 0.0 else if x > 1.0 then 1.0 else x
    {
      if state == STAND {
        if up {
          pdRatio := pdRatio + deltaPd;
        } else {
          pdRatio := pdRatio - deltaPd;
        }
        pdRatio := if pdRatio < 1.0 then pdRatio else 1.0;
        pdRatio := if pdRatio > 0.0 then pdRatio else 0.0;
      }
    }
  }

  // ---- The control step as a function ----

  datatype Parameters = Parameters(deltaPd: real, kp: real, kd: real, initPos: seq<real>)

  /** One gamepad sample, the z component of the projected gravity, and the user controller's targets. */
  datatype Input = Input(r2: bool, r1: bool, a: bool, l2: bool, b: bool, gravityZ: real, targets: seq<real>)

  /** What the robot interface sends: joint targets, and the gains that fill all twelve entries. */
  datatype Command = Command(positions: seq<real>, kp: real, kd: real)

  datatype Controller = Controller(machine: Machine, r2: ButtonState, r1: ButtonState, a: ButtonState,
    l2: ButtonState, b: ButtonState, out: Command)

  function WithButtons(c: Controller, i: Input): Controller {
    c.(r2 := Updated(c.r2, i.r2), r1 := Updated(c.r1, i.r1), a := Updated(c.a, i.a),
       l2 := Updated(c.l2, i.l2), b := Updated(c.b, i.b))
  }

  /** The transitions, in the order R2, A, L2 + B, with the two callbacks. */
  function Transitions(p: Parameters, c: Controller): Controller {
    var m := c.machine;
    var c1 := if c.r2.onPress && m.mode != STAND
              then c.(machine := Stood(m), out := Command(p.initPos, p.kp * m.pdRatio, p.kd * m.pdRatio)) else c;
    var c2 := if c.a.onPress && MayControl(c1.machine)
              then c1.(machine := c1.machine.(mode := CTRL), out := Command(p.initPos, p.kp, p.kd)) else c1;
    if c.l2.pressed && c.b.pressed then c2.(machine := Stopped(c2.machine)) else c2
  }

  function StandingStep(p: Parameters, c: Controller): Controller {
    var m1 := if c.r2.pressed then Ramped(c.machine, p.deltaPd, true) else c.machine;
    var m2 := if c.r1.pressed then Ramped(m1, p.deltaPd, false) else m1;
    c.(machine := m2, out := c.out.(kp := 40.0 * m2.pdRatio, kd := m2.pdRatio))
  }

  function Act(p: Parameters, c: Controller, i: Input): Controller {
    match c.machine.mode
    case STAND => StandingStep(p, c)
    case DAMPING => c.(out := Command(p.initPos, 0.0, 2.0))
    case CTRL =>
      var c1 := c.(out := c.out.(positions := i.targets));
      if i.gravityZ > 0.0 then c1.(machine := Stopped(c.machine)) else c1
  }

  /** The machine's mode when the step selects what to do. */
  function Selected(p: Parameters, c: Controller, i: Input): Mode {
    Transitions(p, WithButtons(c, i)).machine.mode
  }

  function Step(p: Parameters, c: Controller, i: Input): Controller {
    Act(p, Transitions(p, WithButtons(c, i)), i)
  }

  function Run(p: Parameters, c: Controller, inputs: seq<Input>): Controller {
    if inputs == [] then c else Step(p, Run(p, c, inputs[..|inputs| - 1]), inputs[|inputs| - 1])
  }

  // ---- The step as the program runs it ----

  class RobotController {
    const stateMachine: SimpleStateMachine
    const r2: Button
    const r1: Button
    const a: Button
    const l2: Button
    const b: Button
    const kp: real
    const kd: real
    const initPos: seq<real>
    var out: Command

    ghost predicate Distinct() {
      r2 != r1 && r2 != a && r2 != l2 && r2 != b && r1 != a && r1 != l2 && r1 != b && a != l2 && a != b && l2 != b
    }

    ghost function Value(): Controller
      reads this, stateMachine, r2, r1, a, l2, b
    {
      Controller(stateMachine.Value(), r2.Value(), r1.Value(), a.Value(), l2.Value(), b.Value(), out)
    }

    ghost function Params(): Parameters {
      Parameters(stateMachine.deltaPd, kp, kd, initPos)
    }

    constructor (kp: real, kd: real, initPos: seq<real>)
      ensures Distinct() && Params() == Parameters(0.005, kp, kd, initPos)
      ensures Value() == Controller(Machine(STAND, 0.1), RELEASED, RELEASED, RELEASED, RELEASED, RELEASED,
                                    Command(initPos, 0.0, 2.0))
    {
      stateMachine := new SimpleStateMachine(0.1, 0.005);
      r2 := new Button();
      r1 := new Button();
      a := new Button();
      l2 := new Button();
      b := new Button();
      this.kp, this.kd, this.initPos := kp, kd, initPos;
      out := Command(initPos, 0.0, 2.0);
    }

    method InterpretGamePad(i: Input)
      requires Distinct()
      modifies r2, r1, a, l2, b
      ensures Value() == WithButtons(old(Value()), i)
    {
      r1.Update(i.r1);
      r2.Update(i.r2);
      l2.Update(i.l2);
      a.Update(i.a);
      b.Update(i.b);
    }

    method UpdateStateMachine()
      requires Distinct()
      modifies this, stateMachine
      ensures Value() == Transitions(Params(), old(Value()))
    {
      if r2.onPress {
        var stood := stateMachine.Stand();
        if stood {
          out := Command(initPos, kp * stateMachine.pdRatio, kd * stateMachine.pdRatio);
        }
      }
      if a.onPress {
        var controlled := stateMachine.Ctrl();
        if controlled {
          out := Command(initPos, kp, kd);
        }
      }
      if l2.pressed && b.pressed {
        var stopped := stateMachine.Stop();
      }
    }

    method Standing()
      requires Distinct() && stateMachine.state == STAND
      modifies this, stateMachine
      ensures Value() == StandingStep(Params(), old(Value()))
    {
      if r2.pressed {
        stateMachine.Standing(true);
      }
      if r1.pressed {
        stateMachine.Standing(false);
      }
      out := out.(kp := 40.0 * stateMachine.pdRatio, kd := 1.0 * stateMachine.pdRatio);
    }

    method ControlStep(i: Input) returns (cmd: Command)
      requires Distinct()
      modifies this, stateMachine, r2, r1, a, l2, b
      ensures Value() == Step(Params(), old(Value()), i) && cmd == Value().out
    {
      InterpretGamePad(i);
      UpdateStateMachine();
      if stateMachine.state == STAND {
        Standing();
      }
      if stateMachine.state == DAMPING {
        out := Command(initPos, 0.0, 2.0);
      }
      if stateMachine.state == CTRL {
        out := out.(positions := i.targets);
        if i.gravityZ > 0.0 {
          var stopped := stateMachine.Stop();
        }
      }
      cmd := out;
    }
  }

  // ---- What every run keeps ----

  ghost predicate Inv(p: Parameters, c: Controller) {
    && 0.0 <= c.machine.pdRatio <= 1.0
    && (c.machine.mode == STAND ==> c.out.positions == p.initPos)
    && (c.machine.mode == CTRL ==> c.machine.pdRatio > 0.95 && c.out.kp == p.kp && c.out.kd == p.kd)
  }

  lemma StepKeepsInv(p: Parameters, c: Controller, i: Input)
    requires Inv(p, c)
    ensures Inv(p, Step(p, c, i))
  {
    TransitionsKeepInv(p, WithButtons(c, i));
    ActKeepsInv(p, Transitions(p, WithButtons(c, i)), i);
  }

  lemma TransitionsKeepInv(p: Parameters, c: Controller)
    requires Inv(p, c)
    ensures Inv(p, Transitions(p, c))
  {
  }

  lemma ActKeepsInv(p: Parameters, c: Controller, i: Input)
    requires Inv(p, c)
    ensures Inv(p, Act(p, c, i))
  {
  }

  /** Over all inputs the ratio stays in [0, 1], standing keeps the initial pose as its target, and
      control is only entered and held with the ratio above 0.95. */
  lemma {:induction false} EveryRun(p: Parameters, c: Controller, inputs: seq<Input>)
    requires Inv(p, c)
    ensures Inv(p, Run(p, c, inputs))
    decreases |inputs|
  {
    if inputs != [] {
      var k := |inputs| - 1;
      EveryRun(p, c, inputs[..k]);
      StepKeepsInv(p, Run(p, c, inputs[..k]), inputs[k]);
    }
  }

  /** Which mode a step acts in: L2 with B goes before A, A before R2, and A and R2 count when they go
      down.  Damping and control are only left by a button. */
  lemma SelectionIff(p: Parameters, c: Controller, i: Input)
    ensures var standing := c.machine.mode == STAND || (i.r2 && !c.r2.pressed);
            Selected(p, c, i) ==
            if i.l2 && i.b then DAMPING
            else if standing && i.a && !c.a.pressed && c.machine.pdRatio > 0.95 then CTRL
            else if standing then STAND
            else c.machine.mode
  {
  }

  /** The gains that the two callbacks set on entering a mode, which last until the step acts. */
  lemma GainsOnEntry(p: Parameters, c: Controller)
    ensures var ratio := c.machine.pdRatio;
            var stands := c.r2.onPress && c.machine.mode != STAND;
            var controls := c.a.onPress && (stands || c.machine.mode == STAND) && ratio > 0.95;
            Transitions(p, c).out ==
            if controls then Command(p.initPos, p.kp, p.kd)
            else if stands then Command(p.initPos, p.kp * ratio, p.kd * ratio)
            else c.out
  {
  }

  /** What the step does to the machine: standing, R2 raises the ratio and R1 lowers it; control ends
      exactly with gravity pointing up; L2 with B takes the ratio away; nothing else changes. */
  lemma MachineOfStep(p: Parameters, c: Controller, i: Input)
    requires Inv(p, c) && p.deltaPd >= 0.0
    ensures var m, d := c.machine, Step(p, c, i).machine;
      match Selected(p, c, i)
      case DAMPING => d == Machine(DAMPING, if i.l2 && i.b then 0.0 else m.pdRatio)
      case CTRL => d == if i.gravityZ > 0.0 then Machine(DAMPING, 0.0) else Machine(CTRL, m.pdRatio)
      case STAND =>
        var up := if !i.r2 then m.pdRatio else if m.pdRatio + p.deltaPd < 1.0 then m.pdRatio + p.deltaPd else 1.0;
        d == Machine(STAND, if !i.r1 then up else if up > p.deltaPd then up - p.deltaPd else 0.0)
  {
    var t := Transitions(p, WithButtons(c, i));
    assert t.machine.mode == STAND ==> t.machine.pdRatio == c.machine.pdRatio;
  }

  predicate SameButtons(c: Controller, d: Controller) {
    d.r2 == c.r2 && d.r1 == c.r1 && d.a == c.a && d.l2 == c.l2 && d.b == c.b
  }

  lemma TransitionsKeepButtons(p: Parameters, c: Controller)
    ensures SameButtons(c, Transitions(p, c))
  {
  }

  lemma ActKeepsButtons(p: Parameters, c: Controller, i: Input)
    ensures SameButtons(c, Act(p, c, i))
  {
  }

  /** The step remembers each button's own sample, so a press is one sample long. */
  lemma ButtonsOfStep(p: Parameters, c: Controller, i: Input)
    ensures var d := Step(p, c, i);
            && d.r2.pressed == i.r2 && d.r1.pressed == i.r1 && d.a.pressed == i.a
            && d.l2.pressed == i.l2 && d.b.pressed == i.b
  {
    var b := WithButtons(c, i);
    TransitionsKeepButtons(p, b);
    ActKeepsButtons(p, Transitions(p, b), i);
  }

  /** The command each step sends, by the mode it selects. */
  lemma GainsOfStep(p: Parameters, c: Controller, i: Input)
    requires Inv(p, c)
    ensures var d := Step(p, c, i);
      match Selected(p, c, i)
      case DAMPING => d.out == Command(p.initPos, 0.0, 2.0)
      case STAND => d.out == Command(p.initPos, 40.0 * d.machine.pdRatio, d.machine.pdRatio)
      case CTRL => d.out == Command(i.targets, p.kp, p.kd)
    ensures i.l2 && i.b ==> Selected(p, c, i) == DAMPING
  {
    TransitionsKeepInv(p, WithButtons(c, i));
  }

  /** Gravity pointing up in control stops the machine, and the next step sends no stiffness unless it
      is told to stand, when the gain restarts from nothing. */
  lemma FallDamps(p: Parameters, c: Controller, i: Input, next: Input)
    requires Inv(p, c) && p.deltaPd >= 0.0
    requires Selected(p, c, i) == CTRL && i.gravityZ > 0.0
    ensures var d := Step(p, c, i);
      && d.machine == Machine(DAMPING, 0.0)
      && (!(next.r2 && !i.r2) ==> Step(p, d, next).out == Command(p.initPos, 0.0, 2.0))
      && 0.0 <= Step(p, d, next).out.kp <= 40.0 * p.deltaPd
  {
    var d := Step(p, c, i);
    var t := Transitions(p, WithButtons(d, next));
    assert t.machine.pdRatio == 0.0 && t.machine.mode != CTRL;
  }

  // ---- Control needs a full ramp ----

  /** The steps of a run that stand with R2 held. */
  ghost function RampSteps(p: Parameters, c: Controller, inputs: seq<Input>): nat {
    if inputs == [] then 0
    else
      var k := |inputs| - 1;
      RampSteps(p, c, inputs[..k]) +
      if Ramps(p, Run(p, c, inputs[..k]), inputs[k]) then 1 else 0
  }

  predicate Ramps(p: Parameters, c: Controller, i: Input) {
    i.r2 && Selected(p, c, i) == STAND
  }

  lemma RampOfStep(p: Parameters, c: Controller, i: Input, n: nat)
    requires p.deltaPd >= 0.0 && 0.0 <= c.machine.pdRatio <= Times(n, p.deltaPd)
    ensures 0.0 <= Step(p, c, i).machine.pdRatio <= Times(if Ramps(p, c, i) then n + 1 else n, p.deltaPd)
  {
    var t := Transitions(p, WithButtons(c, i));
    assert 0.0 <= t.machine.pdRatio <= c.machine.pdRatio && t.r2.pressed == i.r2;
    RampOfAct(p, t, i, n);
  }

  lemma RampOfAct(p: Parameters, t: Controller, i: Input, n: nat)
    requires p.deltaPd >= 0.0 && 0.0 <= t.machine.pdRatio <= Times(n, p.deltaPd) && t.r2.pressed == i.r2
    ensures var ramps := i.r2 && t.machine.mode == STAND;
            0.0 <= Act(p, t, i).machine.pdRatio <= Times(if ramps then n + 1 else n, p.deltaPd)
  {
    assert Times(n + 1, p.deltaPd) == Times(n, p.deltaPd) + p.deltaPd;
  }

  lemma {:induction false} RampBoundsRatio(p: Parameters, c: Controller, inputs: seq<Input>)
    requires p.deltaPd >= 0.0 && c.machine.pdRatio == 0.0
    ensures 0.0 <= Run(p, c, inputs).machine.pdRatio <= Times(RampSteps(p, c, inputs), p.deltaPd)
    decreases |inputs|
  {
    if inputs != [] {
      var k := |inputs| - 1;
      var before, n := Run(p, c, inputs[..k]), RampSteps(p, c, inputs[..k]);
      RampBoundsRatio(p, c, inputs[..k]);
      RampOfStep(p, before, inputs[k], n);
      assert RampSteps(p, c, inputs) == if Ramps(p, before, inputs[k]) then n + 1 else n;
    }
  }

  /** n increments of d. */
  ghost function Times(n: nat, d: real): real {
    if n == 0 then 0.0 else Times(n - 1, d) + d
  }

  lemma {:induction false} TimesIsProduct(n: nat, d: real)
    ensures Times(n, d) == n as real * d
  {
    if n > 0 {
      TimesIsProduct(n - 1, d);
      var x := (n - 1) as real;
      assert n as real == x + 1.0;
      assert (x + 1.0) * d == x * d + d;
    }
  }

  /** The steps that stand with R2 held, one after the other. */
  lemma {:induction false} RampPositions(p: Parameters, c: Controller, inputs: seq<Input>, n: nat)
      returns (at: seq<nat>)
    requires n <= |inputs|
    ensures |at| == RampSteps(p, c, inputs[..n]) && (forall i, j :: 0 <= i < j < |at| ==> at[i] < at[j])
    ensures forall j :: 0 <= j < |at| ==> at[j] < n && RampsAt(p, c, inputs, at[j])
  {
    at := [];
    if n > 0 {
      at := RampPositions(p, c, inputs, n - 1);
      assert inputs[..n][..n - 1] == inputs[..n - 1];
      if RampsAt(p, c, inputs, n - 1) {
        at := at + [n - 1];
      }
    }
  }

  ghost predicate RampsAt(p: Parameters, c: Controller, inputs: seq<Input>, k: nat)
    requires k < |inputs|
  {
    Ramps(p, Run(p, c, inputs[..k]), inputs[k])
  }

  /** After a stop, control can only be reached again through different steps in STAND with R2 held,
      so many that their increments add up to more than 0.95. */
  lemma {:induction false} ControlNeedsRamp(p: Parameters, c: Controller, inputs: seq<Input>) returns (at: seq<nat>)
    requires p.deltaPd >= 0.0 && c.machine == Machine(DAMPING, 0.0)
    requires Run(p, c, inputs).machine.mode == CTRL
    ensures forall i, j :: 0 <= i < j < |at| ==> at[i] < at[j]
    ensures forall j :: 0 <= j < |at| ==>
      at[j] < |inputs| && inputs[at[j]].r2 && Selected(p, Run(p, c, inputs[..at[j]]), inputs[at[j]]) == STAND
    ensures Times(|at|, p.deltaPd) > 0.95
  {
    at := RampPositions(p, c, inputs, |inputs|);
    assert inputs[..|inputs|] == inputs;
    forall j | 0 <= j < |at|
      ensures inputs[at[j]].r2 && Selected(p, Run(p, c, inputs[..at[j]]), inputs[at[j]]) == STAND
    {
      assert RampsAt(p, c, inputs, at[j]);
    }
    EveryRun(p, c, inputs);
    RampBoundsRatio(p, c, inputs);
  }

  function Repeated(i: Input, n: nat): (r: seq<Input>)
    ensures |r| == n
  {
    seq(n, _ => i)
  }

  /** R2 and no other button. */
  predicate OnlyR2(i: Input) {
    i.r2 && !i.r1 && !i.a && !i.l2 && !i.b
  }

  /** Holding R2 after a stop stands the robot up and raises the ratio by one increment a step. */
  lemma {:induction false} HoldingRamps(p: Parameters, c: Controller, i: Input, n: nat)
    requires p.deltaPd >= 0.0 && OnlyR2(i) && c.machine == Machine(DAMPING, 0.0) && !c.r2.pressed && !c.a.pressed
    ensures var d := Run(p, c, Repeated(i, n));
      && (n == 0 ==> d == c) && 0.0 <= Times(n, p.deltaPd)
      && (n > 0 ==> d.machine == Machine(STAND, Clamp(Times(n, p.deltaPd))) && d.r2.pressed && !d.a.pressed)
  {
    if n > 0 {
      HoldingRamps(p, c, i, n - 1);
      assert Repeated(i, n)[..n - 1] == Repeated(i, n - 1);
      var d := Run(p, c, Repeated(i, n - 1));
      HoldOnce(p, d, i, n - 1);
    }
  }

  lemma HoldOnce(p: Parameters, d: Controller, i: Input, n: nat)
    requires p.deltaPd >= 0.0 && OnlyR2(i) && 0.0 <= Times(n, p.deltaPd) && !d.a.pressed
    requires if n == 0 then d.machine == Machine(DAMPING, 0.0) && !d.r2.pressed
             else d.machine == Machine(STAND, Clamp(Times(n, p.deltaPd))) && d.r2.pressed
    ensures var e := Step(p, d, i);
      e.machine == Machine(STAND, Clamp(Times(n + 1, p.deltaPd))) && e.r2.pressed && !e.a.pressed
  {
    assert Times(n + 1, p.deltaPd) == Times(n, p.deltaPd) + p.deltaPd;
    var t := Transitions(p, WithButtons(d, i));
    assert t.machine.mode == STAND && t.machine.pdRatio == Clamp(Times(n, p.deltaPd));
  }

  /** Pressing A after n held steps enters control exactly when n increments exceed 0.95, so the
      ramp that control needs is also enough. */
  lemma RampSuffices(p: Parameters, c: Controller, i: Input, n: nat, press: Input)
    requires p.deltaPd >= 0.0 && OnlyR2(i) && c.machine == Machine(DAMPING, 0.0) && !c.r2.pressed && !c.a.pressed
    requires n > 0 && press == i.(a := true)
    ensures Selected(p, Run(p, c, Repeated(i, n)), press) == CTRL <==> Times(n, p.deltaPd) > 0.95
  {
    HoldingRamps(p, c, i, n);
  }
}
