/**
 * The world the experiments run in, as far as the enactment rules see it:
 * an ordered list of entities, each with a kind and a position, and the
 * world's width and height. The world module itself is not part of this
 * model; get_entities_at, add_entity and remove_entity are given here the
 * meaning the enactment rules rely on.
 *
 * An entity is identified by its `id` (the source compares objects by
 * identity). A block may be taller than one cell: an entity occupies the
 * cells of its column from its position downwards over its height.
 */
module Worlds {

  datatype Pos = Pos(x: int, y: int)

  /** The kinds of entity the experiments place: structures and three kinds of agent. */
  datatype Kind =
    | Wall
    | Block
    | Food
    | ConstructiveAgent
    | HomeostaticAgent
    | PerceivingAgent

  predicate IsAgent(k: Kind) {
    k == ConstructiveAgent || k == HomeostaticAgent || k == PerceivingAgent
  }

  datatype Entity = Entity(id: nat, kind: Kind, pos: Pos, height: nat, rotation: int)

  /** The entity covers cell `p`: the same column, a row within its height. */
  predicate Occupies(e: Entity, p: Pos) {
    e.pos.x == p.x && e.pos.y <= p.y < e.pos.y + e.height
  }

  function Plus(p: Pos, delta: Pos): (q: Pos)
    ensures q.x - p.x == delta.x && q.y - p.y == delta.y
  {
    Pos(p.x + delta.x, p.y + delta.y)
  }

  /** get_entities_at: the entities covering `p`, in the world's order. */
  function EntitiesAt(es: seq<Entity>, p: Pos): (at: seq<Entity>)
    ensures |at| <= |es|
    ensures forall e :: e in at <==> e in es && Occupies(e, p)
  {
    if es == [] then []
    else
      var rest := EntitiesAt(es[1..], p);
      assert forall e :: e in es <==> e == es[0] || e in es[1..];
      if Occupies(es[0], p) then [es[0]] + rest else rest
  }

  /** remove_entity: the world without `e`, everything else in its order. */
  function Remove(es: seq<Entity>, e: Entity): (rest: seq<Entity>)
    ensures |rest| <= |es|
    ensures forall x :: x in rest <==> x in es && x != e
  {
    if es == [] then []
    else
      var tail := Remove(es[1..], e);
      assert forall x :: x in es <==> x == es[0] || x in es[1..];
      if es[0] == e then tail else [es[0]] + tail
  }

  /** No two entities share an id. */
  predicate UniqueIds(es: seq<Entity>) {
    forall i, j :: 0 <= i < j < |es| ==> es[i].id != es[j].id
  }

  /** With unique ids, removing a present entity takes out exactly that one occurrence. */
  lemma {:induction false} RemoveOne(es: seq<Entity>, e: Entity)
    requires UniqueIds(es) && e in es
    ensures multiset(Remove(es, e)) + multiset{e} == multiset(es)
    ensures |Remove(es, e)| == |es| - 1
  {
    assert es == [es[0]] + es[1..];
    if es[0] == e {
      assert e !in es[1..] by {
        forall j | 0 <= j < |es[1..]| ensures es[1..][j] != e {
          assert es[1..][j] == es[j + 1];
        }
      }
      RemoveAbsent(es[1..], e);
    } else {
      RemoveOne(es[1..], e);
    }
  }

  /** Removing an absent entity changes nothing. */
  lemma {:induction false} RemoveAbsent(es: seq<Entity>, e: Entity)
    requires e !in es
    ensures Remove(es, e) == es
  {
    if es != [] {
      assert e !in es[1..];
      RemoveAbsent(es[1..], e);
      assert es == [es[0]] + es[1..];
    }
  }

  /** Removing an entity keeps ids unique. */
  lemma {:induction false} RemoveKeepsUniqueIds(es: seq<Entity>, e: Entity)
    requires UniqueIds(es)
    ensures UniqueIds(Remove(es, e))
  {
    if es != [] {
      RemoveKeepsUniqueIds(es[1..], e);
      var tail := Remove(es[1..], e);
      if es[0] != e {
        var r := [es[0]] + tail;
        forall j | 0 < j < |r| ensures r[0].id != r[j].id {
          assert r[j] in tail;
          assert r[j] in es[1..];
          var k :| 0 <= k < |es[1..]| && es[1..][k] == r[j];
          assert es[k + 1] == r[j];
        }
      }
    }
  }

  /** The first entity of `es` of kind `k`, as an index: |es| when there is none. */
  function FirstOfKind(es: seq<Entity>, k: Kind): (r: nat)
    ensures r <= |es|
    ensures r < |es| ==> es[r].kind == k
    ensures forall j :: 0 <= j < r ==> es[j].kind != k
  {
    if es == [] then 0
    else if es[0].kind == k then 0
    else 1 + FirstOfKind(es[1..], k)
  }

  class World {
    var entities: seq<Entity>
    var nextId: nat
    var width: nat
    var height: nat

    /** Every entity has a fresh, unique id and covers at least one cell. */
    ghost predicate Valid()
      reads this
    {
      && UniqueIds(entities)
      && (forall e :: e in entities ==> e.id < nextId && e.height >= 1)
    }

    /** An empty 0 x 0 world. */
    constructor ()
      ensures Valid()
      ensures entities == [] && nextId == 0 && width == 0 && height == 0
    {
      entities := [];
      nextId := 0;
      width := 0;
      height := 0;
    }

    /** add_entity: the new entity, under a fresh id, goes to the end of the list. */
    method AddEntity(kind: Kind, pos: Pos, height: nat) returns (e: Entity)
      requires Valid() && height >= 1
      modifies this
      ensures Valid()
      ensures e == Entity(old(nextId), kind, pos, height, 0)
      ensures entities == old(entities) + [e]
      ensures nextId == old(nextId) + 1
      ensures width == old(width) && this.height == old(this.height)
    {
      e := Entity(nextId, kind, pos, height, 0);
      entities := entities + [e];
      nextId := nextId + 1;
    }

    /** remove_entity */
    method RemoveEntity(e: Entity)
      requires Valid()
      modifies this
      ensures Valid()
      ensures entities == Remove(old(entities), e)
      ensures nextId == old(nextId) && width == old(width) && height == old(height)
    {
      RemoveKeepsUniqueIds(entities, e);
      entities := Remove(entities, e);
    }
  }
}
