/**
 * The single-agent enactment rules of the basic experiments: the callbacks
 * the world calls when an agent tries to enact a primitive interaction. Each
 * returns the interaction actually enacted, which may be the failing variant
 * of the one attempted, and may change the world.
 *
 * The acting agent is `w.entities[a]`. Whether the agent can step (the
 * world's can_step) and the displacement of one step in the agent's
 * direction (agent.get_move_delta(1)) come from the world and agent modules,
 * which are not part of this model; they are parameters here.
 */
module Enactment {
  import opened Interactions
  import opened Worlds

  const StepOk := Primitive("Step", "Succeed")
  const StepFail := Primitive("Step", "Fail")
  const TurnRightOk := Primitive("Turn Right", "Succeed")
  const TurnLeftOk := Primitive("Turn Left", "Succeed")
  const FeelOk := Primitive("Feel", "Succeed")
  const FeelFail := Primitive("Feel", "Fail")
  const CuddleOk := Primitive("Cuddle", "Succeed")
  const CuddleFail := Primitive("Cuddle", "Fail")
  const EatOk := Primitive("Eat", "Succeed")
  const EatFail := Primitive("Eat", "Fail")
  const DestroyOk := Primitive("Destroy", "Succeed")
  const DestroyFail := Primitive("Destroy", "Fail")
  const PushOk := Primitive("Push", "Succeed")
  const PushFail := Primitive("Push", "Fail")

  /** The agent the callback is called for is an agent of the world. */
  predicate ActingAgent(w: World, a: nat)
    reads w
  {
    a < |w.entities| && IsAgent(w.entities[a].kind)
  }

  /** FirstOfKind finds something exactly when an entity of that kind is present. */
  lemma {:induction false} FirstOfKindFinds(es: seq<Entity>, k: Kind)
    ensures FirstOfKind(es, k) < |es| <==> exists e :: e in es && e.kind == k
  {
    if es != [] {
      FirstOfKindFinds(es[1..], k);
      assert forall e :: e in es <==> e == es[0] || e in es[1..];
    }
  }

  /** Some entity of kind `k` covers cell `p`. */
  predicate PresentAt(es: seq<Entity>, k: Kind, p: Pos) {
    exists e :: e in es && e.kind == k && Occupies(e, p)
  }

  /** Scanning the entities at `p` for kind `k` finds one exactly when one is present there. */
  lemma FoundAt(es: seq<Entity>, k: Kind, p: Pos)
    ensures FirstOfKind(EntitiesAt(es, p), k) < |EntitiesAt(es, p)| <==> PresentAt(es, k, p)
  {
    FirstOfKindFinds(EntitiesAt(es, p), k);
  }

  /** _step: the agent moves one step exactly when it can. */
  method Step(w: World, a: nat, canStep: bool, delta: Pos) returns (enacted: Interaction)
    requires w.Valid() && ActingAgent(w, a)
    modifies w
    ensures w.Valid()
    ensures enacted == (if canStep then StepOk else StepFail)
    ensures canStep ==>
      w.entities == old(w.entities)[a := old(w.entities[a]).(pos := Plus(old(w.entities[a].pos), delta))]
    ensures !canStep ==> w.entities == old(w.entities)
    ensures w.nextId == old(w.nextId) && w.width == old(w.width) && w.height == old(w.height)
  {
    if canStep {
      var agent := w.entities[a];
      w.entities := w.entities[a := agent.(pos := Plus(agent.pos, delta))];
      enacted := StepOk;
    } else {
      enacted := StepFail;
    }
  }

  /** _turn_right: always succeeds, a quarter turn clockwise. */
  method TurnRight(w: World, a: nat) returns (enacted: Interaction)
    requires w.Valid() && ActingAgent(w, a)
    modifies w
    ensures w.Valid()
    ensures enacted == TurnRightOk
    ensures w.entities == old(w.entities)[a := old(w.entities[a]).(rotation := old(w.entities[a].rotation) - 90)]
    ensures w.nextId == old(w.nextId) && w.width == old(w.width) && w.height == old(w.height)
  {
    var agent := w.entities[a];
    w.entities := w.entities[a := agent.(rotation := agent.rotation - 90)];
    enacted := TurnRightOk;
  }

  /** _turn_left: always succeeds, a quarter turn anticlockwise. */
  method TurnLeft(w: World, a: nat) returns (enacted: Interaction)
    requires w.Valid() && ActingAgent(w, a)
    modifies w
    ensures w.Valid()
    ensures enacted == TurnLeftOk
    ensures w.entities == old(w.entities)[a := old(w.entities[a]).(rotation := old(w.entities[a].rotation) + 90)]
    ensures w.nextId == old(w.nextId) && w.width == old(w.width) && w.height == old(w.height)
  {
    var agent := w.entities[a];
    w.entities := w.entities[a := agent.(rotation := agent.rotation + 90)];
    enacted := TurnLeftOk;
  }

  /** _feel: succeeds exactly when the agent could not step; it changes nothing. */
  function Feel(canStep: bool): (enacted: Interaction)
    ensures enacted == FeelOk <==> !canStep
    ensures enacted == FeelFail <==> canStep
  {
    if canStep then FeelFail else FeelOk
  }

  /**
   * _cuddle: succeeds exactly when some other agent covers the agent's cell;
   * the world is only read.
   */
  method Cuddle(w: World, a: nat) returns (enacted: Interaction)
    requires ActingAgent(w, a)
    ensures enacted == CuddleOk || enacted == CuddleFail
    ensures enacted == CuddleOk <==>
      exists e :: e in w.entities && IsAgent(e.kind) && e.id != w.entities[a].id && Occupies(e, w.entities[a].pos)
  {
    var agent := w.entities[a];
    var at := EntitiesAt(w.entities, agent.pos);
    for i := 0 to |at|
      invariant forall j :: 0 <= j < i ==> !(at[j].id != agent.id && IsAgent(at[j].kind))
    {
      if at[i].id != agent.id && IsAgent(at[i].kind) {
        return CuddleOk;
      }
    }
    return CuddleFail;
  }

  /** The scan of get_entities_at's result for the first entity of kind `k`. */
  method FindFirst(at: seq<Entity>, k: Kind) returns (i: nat)
    ensures i == FirstOfKind(at, k)
  {
    i := 0;
    while i < |at| && at[i].kind != k
      invariant i <= |at|
      invariant forall j :: 0 <= j < i ==> at[j].kind != k
    {
      i := i + 1;
    }
    FirstOfKindIsLeast(at, k, i);
  }

  /** FirstOfKind is the least index holding kind `k`, or |es| when there is none. */
  lemma {:induction false} FirstOfKindIsLeast(es: seq<Entity>, k: Kind, i: nat)
    requires i <= |es| && (i < |es| ==> es[i].kind == k)
    requires forall j :: 0 <= j < i ==> es[j].kind != k
    ensures FirstOfKind(es, k) == i
  {
    if es != [] && i > 0 {
      FirstOfKindIsLeast(es[1..], k, i - 1);
    }
  }

  /**
   * _eat: the first food covering the agent's cell is removed and eating
   * succeeds; without such food it fails and nothing changes.
   */
  method Eat(w: World, a: nat) returns (enacted: Interaction)
    requires w.Valid() && ActingAgent(w, a)
    modifies w
    ensures w.Valid()
    ensures enacted == EatOk || enacted == EatFail
    ensures enacted == EatOk <==> PresentAt(old(w.entities), Food, old(w.entities[a].pos))
    ensures var at := EntitiesAt(old(w.entities), old(w.entities[a].pos));
      var k := FirstOfKind(at, Food);
      && (k < |at| ==> at[k] in old(w.entities) && w.entities == Remove(old(w.entities), at[k])
                       && multiset(w.entities) + multiset{at[k]} == multiset(old(w.entities)))
      && (k == |at| ==> w.entities == old(w.entities))
    ensures w.nextId == old(w.nextId) && w.width == old(w.width) && w.height == old(w.height)
  {
    var at := EntitiesAt(w.entities, w.entities[a].pos);
    FoundAt(w.entities, Food, w.entities[a].pos);
    var i := FindFirst(at, Food);
    if i < |at| {
      RemoveOne(w.entities, at[i]);
      w.RemoveEntity(at[i]);
      enacted := EatOk;
    } else {
      enacted := EatFail;
    }
  }

  /**
   * _destroy: the first block covering the agent's cell is removed and food
   * is put where it stood; without such a block it fails and nothing changes.
   */
  method Destroy(w: World, a: nat) returns (enacted: Interaction)
    requires w.Valid() && ActingAgent(w, a)
    modifies w
    ensures w.Valid()
    ensures enacted == DestroyOk || enacted == DestroyFail
    ensures enacted == DestroyOk <==> PresentAt(old(w.entities), Block, old(w.entities[a].pos))
    ensures var at := EntitiesAt(old(w.entities), old(w.entities[a].pos));
      var k := FirstOfKind(at, Block);
      && (k < |at| ==>
            && w.entities == Remove(old(w.entities), at[k]) + [Entity(old(w.nextId), Food, at[k].pos, 1, 0)]
            && w.nextId == old(w.nextId) + 1)
      && (k == |at| ==> w.entities == old(w.entities) && w.nextId == old(w.nextId))
    ensures w.width == old(w.width) && w.height == old(w.height)
  {
    var at := EntitiesAt(w.entities, w.entities[a].pos);
    FoundAt(w.entities, Block, w.entities[a].pos);
    var i := FindFirst(at, Block);
    if i < |at| {
      w.RemoveEntity(at[i]);
      var food := w.AddEntity(Food, at[i].pos, 1);
      enacted := DestroyOk;
    } else {
      enacted := DestroyFail;
    }
  }

  /** Every copy of `e` in `es` moved to `p`, everything else as it was. */
  function Relocate(es: seq<Entity>, e: Entity, p: Pos): (moved: seq<Entity>)
    ensures |moved| == |es|
    ensures forall i :: 0 <= i < |es| ==> moved[i] == if es[i] == e then e.(pos := p) else es[i]
  {
    if es == [] then []
    else [if es[0] == e then e.(pos := p) else es[0]] + Relocate(es[1..], e, p)
  }

  /** Moving an entity keeps every id and height, hence the world's invariant. */
  lemma RelocateKeepsIds(es: seq<Entity>, e: Entity, p: Pos, nextId: nat)
    requires UniqueIds(es) && forall x :: x in es ==> x.id < nextId && x.height >= 1
    ensures UniqueIds(Relocate(es, e, p))
    ensures forall x :: x in Relocate(es, e, p) ==> x.id < nextId && x.height >= 1
  {
    var moved := Relocate(es, e, p);
    assert forall j :: 0 <= j < |moved| ==> moved[j].id == es[j].id && moved[j].height == es[j].height;
    forall x | x in moved ensures x.id < nextId && x.height >= 1 {
      var j :| 0 <= j < |moved| && moved[j] == x;
      assert es[j] in es;
    }
  }

  /**
   * _push: when the agent can step, the first block covering its cell moves
   * one step in the agent's direction and pushing succeeds; otherwise, or
   * without such a block, it fails and nothing changes. The agent itself
   * does not move.
   */
  method Push(w: World, a: nat, canStep: bool, delta: Pos) returns (enacted: Interaction)
    requires w.Valid() && ActingAgent(w, a)
    modifies w
    ensures w.Valid()
    ensures enacted == PushOk || enacted == PushFail
    ensures enacted == PushOk <==> canStep && PresentAt(old(w.entities), Block, old(w.entities[a].pos))
    ensures var at := EntitiesAt(old(w.entities), old(w.entities[a].pos));
      var k := FirstOfKind(at, Block);
      && (enacted == PushOk ==> k < |at| && w.entities == Relocate(old(w.entities), at[k], Plus(at[k].pos, delta)))
      && (enacted == PushFail ==> w.entities == old(w.entities))
    ensures w.nextId == old(w.nextId) && w.width == old(w.width) && w.height == old(w.height)
  {
    var es := w.entities;
    var at := EntitiesAt(es, es[a].pos);
    FoundAt(es, Block, es[a].pos);
    var i := FindFirst(at, Block);
    if canStep && i < |at| {
      var block := at[i];
      var moved := Relocate(es, block, Plus(block.pos, delta));
      RelocateKeepsIds(es, block, Plus(block.pos, delta), w.nextId);
      w.entities := moved;
      enacted := PushOk;
      assert w.Valid();
    } else {
      enacted := PushFail;
      assert w.entities == es;
    }
  }
}
