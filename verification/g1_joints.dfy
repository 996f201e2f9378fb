/** The joints of the G1 by name: the order in which the policy lists them, the order of the motors,
    and that the controller's map and literals agree with both. */
module G1Joints {
  import opened G1Controller

  datatype Joint =
    | LeftHipPitch | LeftHipRoll | LeftHipYaw | LeftKnee | LeftAnklePitch | LeftAnkleRoll
    | RightHipPitch | RightHipRoll | RightHipYaw | RightKnee | RightAnklePitch | RightAnkleRoll
    | WaistYaw | WaistRoll | WaistPitch
    | LeftShoulderPitch | LeftShoulderRoll | LeftShoulderYaw | LeftElbow
    | LeftWristRoll | LeftWristPitch | LeftWristYaw
    | RightShoulderPitch | RightShoulderRoll | RightShoulderYaw | RightElbow
    | RightWristRoll | RightWristPitch | RightWristYaw
    | Finger(k: nat)

  /** The motors in their own order. */
  const MOTORS := [
    LeftHipPitch, LeftHipRoll, LeftHipYaw, LeftKnee, LeftAnklePitch, LeftAnkleRoll,
    RightHipPitch, RightHipRoll, RightHipYaw, RightKnee, RightAnklePitch, RightAnkleRoll,
    WaistYaw, WaistRoll, WaistPitch,
    LeftShoulderPitch, LeftShoulderRoll, LeftShoulderYaw, LeftElbow, LeftWristRoll, LeftWristPitch, LeftWristYaw,
    RightShoulderPitch, RightShoulderRoll, RightShoulderYaw, RightElbow, RightWristRoll, RightWristPitch,
    RightWristYaw]

  /** The joints of the policy that have names; what it calls elbow roll is the wrist roll. */
  const POLICY_JOINTS := [
    LeftHipPitch, RightHipPitch, WaistYaw, LeftHipRoll, RightHipRoll, LeftShoulderPitch, RightShoulderPitch,
    LeftHipYaw, RightHipYaw, LeftShoulderRoll, RightShoulderRoll, LeftKnee, RightKnee,
    LeftShoulderYaw, RightShoulderYaw, LeftAnklePitch, RightAnklePitch, LeftElbow, RightElbow,
    LeftAnkleRoll, RightAnkleRoll, LeftWristRoll, RightWristRoll]

  function PolicyJoint(i: nat): Joint {
    if i < |POLICY_JOINTS| then POLICY_JOINTS[i] else Finger(i - |POLICY_JOINTS|)
  }

  /** A policy joint drives the motor of the same name; only the fingers have none. */
  lemma MapFollowsNames(i: nat)
    requires i < N_ISAAC
    ensures |MOTORS| == N_SDK
    ensures G1_RIG.toSdk[i] >= 0 ==> G1_RIG.toSdk[i] < N_SDK && MOTORS[G1_RIG.toSdk[i]] == PolicyJoint(i)
    ensures G1_RIG.toSdk[i] < 0 <==> PolicyJoint(i).Finger?
  {
    assert G1_RIG.toSdk[i] == G1_TO_SDK[i];
    if i < 8 {
      FirstNames(i);
    } else if i < 16 {
      MiddleNames(i);
    } else if i < 23 {
      LastNames(i);
    } else {
      assert G1_TO_SDK[i] == -1;
    }
  }

  lemma FirstNames(i: nat)
    requires i < 8
    ensures 0 <= G1_TO_SDK[i] < |MOTORS| && MOTORS[G1_TO_SDK[i]] == POLICY_JOINTS[i] && !POLICY_JOINTS[i].Finger?
  {
  }

  lemma MiddleNames(i: nat)
    requires 8 <= i < 16
    ensures 0 <= G1_TO_SDK[i] < |MOTORS| && MOTORS[G1_TO_SDK[i]] == POLICY_JOINTS[i] && !POLICY_JOINTS[i].Finger?
  {
  }

  lemma LastNames(i: nat)
    requires 16 <= i < 23
    ensures 0 <= G1_TO_SDK[i] < |MOTORS| && MOTORS[G1_TO_SDK[i]] == POLICY_JOINTS[i] && !POLICY_JOINTS[i].Finger?
  {
  }

  /** The motors that no policy joint drives: waist roll and pitch, and pitch and yaw of the wrists. */
  lemma UndrivenMotors(m: nat)
    requires m < N_SDK
    ensures |MOTORS| == N_SDK
    ensures G1_RIG.toIsaac[m] < 0 <==>
            MOTORS[m] in {WaistRoll, WaistPitch, LeftWristPitch, LeftWristYaw, RightWristPitch, RightWristYaw}
  {
    assert G1_RIG.toIsaac[m] == G1_TO_ISAAC[m];
    if m < 12 {
      LegsAreDriven(m);
    }
  }

  lemma LegsAreDriven(m: nat)
    requires m < 12
    ensures G1_TO_ISAAC[m] >= 0
    ensures MOTORS[m] !in {WaistRoll, WaistPitch, LeftWristPitch, LeftWristYaw, RightWristPitch, RightWristYaw}
  {
  }

  // ---- The two sides of the body ----

  /** The positions at which the policy lists a left joint, and the right one behind it. */
  const LEFT_JOINTS: set<nat> := {0, 3, 5, 7, 9, 11, 13, 15, 17, 19, 21}

  /** Joints that turn about an axis across the body: a mirror image turns the same way. */
  predicate IsPitch(j: Joint) {
    j in {LeftHipPitch, LeftShoulderPitch, LeftKnee, LeftAnklePitch, LeftElbow}
  }

  predicate IsMirrored(i: nat) {
    i < 22 && G1_DEFAULTS[i + 1] == if IsPitch(POLICY_JOINTS[i]) then G1_DEFAULTS[i] else -G1_DEFAULTS[i]
  }

  lemma LegsAreSymmetric(i: nat)
    requires i in {0, 3, 7}
    ensures IsMirrored(i)
  {
  }

  lemma KneesAreSymmetric(i: nat)
    requires i in {11, 15, 19}
    ensures IsMirrored(i)
  {
  }

  lemma ShouldersAreSymmetric(i: nat)
    requires i in {5, 9, 13}
    ensures IsMirrored(i)
  {
  }

  lemma ElbowsAreSymmetric(i: nat)
    requires i in {17, 21}
    ensures IsMirrored(i)
  {
  }

  /** The default pose is its own mirror image. */
  lemma DefaultsAreSymmetric(i: nat)
    requires i in LEFT_JOINTS
    ensures IsMirrored(i) && G1_RIG.defaults == G1_DEFAULTS
  {
    if i in {0, 3, 7} {
      LegsAreSymmetric(i);
    } else if i in {11, 15, 19} {
      KneesAreSymmetric(i);
    } else if i in {5, 9, 13} {
      ShouldersAreSymmetric(i);
    } else {
      ElbowsAreSymmetric(i);
    }
  }

  /** Left and right motors have the same gains: six of a leg, seven of an arm. */
  lemma GainsAreSymmetric(m: nat)
    requires m < 6 || 15 <= m < 22
    ensures var right := if m < 6 then m + 6 else m + 7;
            G1_KP[right] == G1_KP[m] && G1_KD[right] == G1_KD[m]
    ensures G1_RIG.kp == G1_KP && G1_RIG.kd == G1_KD
  {
  }
}
