/**
 * The basic experiments as data: for each one, the primitive interactions
 * its agents know, the interactions whose names the enactment rules are
 * registered under, the intrinsic motivation of every primitive, and
 * whether it has a controller.
 *
 * A motivation is either a constant or, in the homeostatic experiments, a
 * function of the agent. Every such function in these tables is affine in
 * the agent's energy (its homeostatic value "energy"), so it is represented
 * by its constant term and its energy coefficient.
 */
module BasicExperiments {
  import opened Interactions
  import opened Enactment
  import opened CollaborativeDestroy
  import opened Experiments

  datatype Motivation =
    | Constant(value: int)
    | PerAgent(base: real, perEnergy: real)

  /** The motivation an agent with the given energy gets from `m`. */
  function Value(m: Motivation, energy: real): real {
    match m
    case Constant(v) => v as real
    case PerAgent(base, perEnergy) => base + perEnergy * energy
  }

  datatype ExperimentKind =
    | Basic
    | BasicHomeostatic
    | BasicCoexistence
    | BasicVision
    | BasicHomeostaticVision
    | BasicVisionPush
    | BasicVisionCoexistence
    | BasicVisionCoexistenceDestroy

  /** The energy a homeostatic agent starts with in the homeostatic experiments. */
  const InitialEnergy: real := 100.0

  /** The primitives the experiment's agents know, in the order they are set. */
  function Primitives(k: ExperimentKind): seq<Interaction> {
    var moves := [StepOk, StepFail, TurnRightOk, TurnLeftOk];
    match k
    case Basic => moves + [FeelOk, FeelFail]
    case BasicHomeostatic => moves + [FeelOk, FeelFail]
    case BasicCoexistence => moves + [FeelOk, FeelFail, CuddleOk, CuddleFail]
    case BasicVision => moves
    case BasicHomeostaticVision => moves + [EatOk, EatFail, DestroyOk, DestroyFail]
    case BasicVisionPush => moves + [PushOk, PushFail]
    case BasicVisionCoexistence => moves + [CuddleOk, CuddleFail]
    case BasicVisionCoexistenceDestroy => moves + [EatOk, EatFail, DestroyTogetherOk, DestroyTogetherFail]
  }

  /** The interactions under whose names the experiment registers an enactment rule. */
  function Registered(k: ExperimentKind): seq<Interaction> {
    var moves := [StepOk, TurnRightOk, TurnLeftOk];
    match k
    case Basic => moves + [FeelOk]
    case BasicHomeostatic => moves + [FeelOk]
    case BasicCoexistence => moves + [FeelOk, CuddleOk]
    case BasicVision => moves
    case BasicHomeostaticVision => moves + [EatOk, DestroyOk]
    case BasicVisionPush => moves + [PushOk]
    case BasicVisionCoexistence => moves + [CuddleOk]
    case BasicVisionCoexistenceDestroy => moves + [EatOk, DestroyTogetherOk]
  }

  /** The intrinsic motivation table of the experiment. */
  function Motivations(k: ExperimentKind): map<Interaction, Motivation> {
    match k
    case Basic | BasicHomeostatic | BasicCoexistence =>
      var table := map[StepOk := Constant(1), StepFail := Constant(-10), TurnRightOk := Constant(-2),
                       TurnLeftOk := Constant(-2), FeelOk := Constant(0), FeelFail := Constant(-1)];
      if k == Basic then table
      else if k == BasicCoexistence then table[CuddleOk := Constant(50)][CuddleFail := Constant(-1)]
      else
        map[StepOk := PerAgent(0.0, 0.1), StepFail := PerAgent(-10.0, 0.0), TurnRightOk := PerAgent(-2.0, 0.0),
            TurnLeftOk := PerAgent(-2.0, 0.0), FeelOk := PerAgent(0.0, 0.0), FeelFail := PerAgent(-1.0, 0.0)]
    case BasicVision =>
      map[StepOk := Constant(25), StepFail := Constant(-10), TurnRightOk := Constant(-2), TurnLeftOk := Constant(-2)]
    case BasicHomeostaticVision =>
      map[StepOk := PerAgent(0.0, 0.1), StepFail := PerAgent(-10.0, 0.0), TurnRightOk := PerAgent(-2.0, 0.0),
          TurnLeftOk := PerAgent(-2.0, 0.0), EatOk := PerAgent(10.0, -0.1), EatFail := PerAgent(-20.0, 0.0),
          DestroyOk := PerAgent(30.0, 0.0), DestroyFail := PerAgent(-2.0, 0.0)]
    case BasicVisionPush =>
      map[StepOk := Constant(-1), StepFail := Constant(-10), TurnRightOk := Constant(-2), TurnLeftOk := Constant(-2),
          PushOk := Constant(500), PushFail := Constant(-1)]
    case BasicVisionCoexistence =>
      map[StepOk := Constant(1), StepFail := Constant(-10), TurnRightOk := Constant(-2), TurnLeftOk := Constant(-2),
          CuddleOk := Constant(50), CuddleFail := Constant(-1)]
    case BasicVisionCoexistenceDestroy =>
      map[StepOk := Constant(-1), StepFail := Constant(-10), TurnRightOk := Constant(-2), TurnLeftOk := Constant(-2),
          EatOk := Constant(20), EatFail := Constant(-2), DestroyTogetherOk := Constant(50),
          DestroyTogetherFail := Constant(-1)]
  }

  /** Only the two experiments that let the user drop food and blocks have a controller. */
  function ControllerOf(k: ExperimentKind): Option<Controller> {
    if k == BasicHomeostaticVision || k == BasicVisionCoexistenceDestroy then Some(KeyController) else None
  }

  /** The homeostatic experiments are those whose motivations depend on the agent. */
  predicate Homeostatic(k: ExperimentKind) {
    k == BasicHomeostatic || k == BasicHomeostaticVision
  }

  /**
   * Every known primitive has exactly one motivation, nothing else has one,
   * and no primitive is listed twice.
   */
  lemma MotivationPerPrimitive(k: ExperimentKind)
    ensures Motivations(k).Keys == set p | p in Primitives(k)
    ensures forall i, j :: 0 <= i < j < |Primitives(k)| ==> Primitives(k)[i] != Primitives(k)[j]
  {
    match k
    case Basic =>
    case BasicHomeostatic =>
    case BasicCoexistence =>
    case BasicVision =>
    case BasicHomeostaticVision =>
    case BasicVisionPush =>
    case BasicVisionCoexistence =>
    case BasicVisionCoexistenceDestroy =>
  }

  /** Every registered rule is for a known, successful primitive. */
  lemma RegisteredAreKnownSuccesses(k: ExperimentKind)
    ensures forall r :: r in Registered(k) ==> r in Primitives(k) && r.Primitive? && r.result == "Succeed"
  {
    match k
    case Basic =>
    case BasicHomeostatic =>
    case BasicCoexistence =>
    case BasicVision =>
    case BasicHomeostaticVision =>
    case BasicVisionPush =>
    case BasicVisionCoexistence =>
    case BasicVisionCoexistenceDestroy =>
  }

  /** The motivations depend on the agent exactly in the homeostatic experiments. */
  lemma AgentDependentExactlyWhenHomeostatic(k: ExperimentKind)
    ensures forall p :: p in Motivations(k) ==> (Motivations(k)[p].PerAgent? <==> Homeostatic(k))
  {
    match k
    case Basic =>
    case BasicHomeostatic =>
    case BasicCoexistence =>
    case BasicVision =>
    case BasicHomeostaticVision =>
    case BasicVisionPush =>
    case BasicVisionCoexistence =>
    case BasicVisionCoexistenceDestroy =>
  }

  /**
   * In every experiment, each failing primitive has its successful
   * counterpart, and succeeding at the action is worth more than failing at
   * it, as long as a homeostatic agent's energy stays strictly between -100
   * and 300.
   */
  lemma SuccessIsPreferred(k: ExperimentKind, fail: Interaction, energy: real)
    requires -100.0 < energy < 300.0
    requires fail in Primitives(k) && fail.Primitive? && fail.result == "Fail"
    ensures Primitive(fail.action, "Succeed") in Primitives(k)
    ensures fail in Motivations(k) && Primitive(fail.action, "Succeed") in Motivations(k)
    ensures Value(Motivations(k)[Primitive(fail.action, "Succeed")], energy) > Value(Motivations(k)[fail], energy)
  {
    match k
    case Basic =>
    case BasicHomeostatic =>
    case BasicCoexistence =>
    case BasicVision =>
    case BasicHomeostaticVision =>
    case BasicVisionPush =>
    case BasicVisionCoexistence =>
    case BasicVisionCoexistenceDestroy =>
  }

  /** A homeostatic agent with its initial energy values a step at 10. */
  lemma InitialStepMotivation(k: ExperimentKind)
    requires Homeostatic(k)
    ensures Value(Motivations(k)[StepOk], InitialEnergy) == 10.0
  {
  }

  /** Exactly the two experiments with a controller report one. */
  lemma ControllersPresent(k: ExperimentKind)
    ensures HasController(ControllerOf(k)) <==> k in {BasicHomeostaticVision, BasicVisionCoexistenceDestroy}
  {
  }
}
