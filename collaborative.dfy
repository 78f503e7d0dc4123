/**
 * _collaborative_destroy: the resolver the world calls with every agent
 * that attempts "Collaborative Destroy" in the same tick. A block is
 * destroyed when two agents standing at different positions both touch it;
 * it turns into two pieces of food, one where the block stood and one just
 * below, and both agents succeed. Every other attempting agent fails.
 *
 * The agents come as a sequence in the order the source's dictionary
 * iterates over them (that order is not part of this model). The resolver
 * is specified by Resolve, Blocks and Partners, one function per loop of the
 * source, and the method is proved to compute exactly what they describe.
 */
module CollaborativeDestroy {
  import opened Interactions
  import opened Worlds

  const DestroyTogetherOk := Primitive("Collaborative Destroy", "Succeed")
  const DestroyTogetherFail := Primitive("Collaborative Destroy", "Fail")

  /** What the resolver changes: the world's entities, its id counter, and the enacted map. */
  datatype Tick = Tick(entities: seq<Entity>, nextId: nat, enacted: map<nat, Interaction>)

  /** The ids of the attempting agents (the keys of agents_interactions). */
  function Ids(agents: seq<Entity>): set<nat> {
    set a | a in agents :: a.id
  }

  /** The cell just below `p`. */
  function Below(p: Pos): Pos {
    Pos(p.x, p.y + 1)
  }

  /** Agents `a1` and `a2` destroy `block`: two foods replace it and both agents succeed. */
  function Shatter(t: Tick, block: Entity, a1: Entity, a2: Entity): (u: Tick)
    ensures block.kind != Food ==> block !in u.entities
    ensures u.nextId == t.nextId + 2
    ensures u.enacted.Keys == t.enacted.Keys + {a1.id, a2.id}
  {
    Tick(
      Remove(t.entities, block)
        + [Entity(t.nextId, Food, block.pos, 1, 0), Entity(t.nextId + 1, Food, Below(block.pos), 1, 0)],
      t.nextId + 2,
      t.enacted[a1.id := DestroyTogetherOk][a2.id := DestroyTogetherOk])
  }

  /**
   * From `t` to `u` the resolver only adds to the enacted map and takes ids
   * two at a time, one pair per destroyed block.
   */
  predicate Spends(t: Tick, u: Tick) {
    && t.enacted.Keys <= u.enacted.Keys
    && t.nextId <= u.nextId
    && (u.nextId - t.nextId) % 2 == 0
  }

  /**
   * The innermost loop: look through agents[j..] for a partner of `a1` on
   * `block`. The source does not stop at the first partner; once the block
   * is gone no later agent can find it.
   */
  function Partners(agents: seq<Entity>, a1: Entity, block: Entity, j: nat, t: Tick): (r: Tick)
    requires j <= |agents|
    ensures Spends(t, r)
    decreases |agents| - j
  {
    if j == |agents| then t
    else
      var a2 := agents[j];
      if a2.id == a1.id then Partners(agents, a1, block, j + 1, t)
      else if a2.pos == a1.pos then Partners(agents, a1, block, j + 1, t)
      else if block in EntitiesAt(t.entities, a2.pos) then Partners(agents, a1, block, j + 1, Shatter(t, block, a1, a2))
      else Partners(agents, a1, block, j + 1, t)
  }

  /** The middle loop: every block among the entities `at` that covered `a1`'s cell. */
  function Blocks(agents: seq<Entity>, a1: Entity, at: seq<Entity>, k: nat, t: Tick): (r: Tick)
    requires k <= |at|
    ensures Spends(t, r)
    decreases |at| - k
  {
    if k == |at| then t
    else if at[k].kind == Block then Blocks(agents, a1, at, k + 1, Partners(agents, a1, at[k], 0, t))
    else Blocks(agents, a1, at, k + 1, t)
  }

  /**
   * The outer loop over agents[i..]: an agent already resolved is skipped;
   * any other one fails by default and then tries every block at its cell.
   */
  function Resolve(agents: seq<Entity>, i: nat, t: Tick): (r: Tick)
    requires i <= |agents|
    ensures Spends(t, r)
    decreases |agents| - i
  {
    if i == |agents| then t
    else
      var a1 := agents[i];
      if a1.id in t.enacted then Resolve(agents, i + 1, t)
      else
        var t1 := t.(enacted := t.enacted[a1.id := DestroyTogetherFail]);
        Resolve(agents, i + 1, Blocks(agents, a1, EntitiesAt(t1.entities, a1.pos), 0, t1))
  }

  /** The resolver's result from an initial world and an empty enacted map. */
  function Resolved(agents: seq<Entity>, entities: seq<Entity>, nextId: nat): (r: Tick)
    ensures nextId <= r.nextId && (r.nextId - nextId) % 2 == 0
  {
    Resolve(agents, 0, Tick(entities, nextId, map[]))
  }

  /** _collaborative_destroy: the outer loop over the attempting agents. */
  method Collaborate(w: World, agents: seq<Entity>) returns (enacted: map<nat, Interaction>)
    requires w.Valid()
    modifies w
    ensures w.Valid()
    ensures Tick(w.entities, w.nextId, enacted) == Resolved(agents, old(w.entities), old(w.nextId))
    ensures w.width == old(w.width) && w.height == old(w.height)
  {
    enacted := map[];
    var i := 0;
    while i < |agents|
      invariant i <= |agents| && w.Valid()
      invariant Resolve(agents, i, Tick(w.entities, w.nextId, enacted)) == Resolved(agents, old(w.entities), old(w.nextId))
      invariant w.width == old(w.width) && w.height == old(w.height)
    {
      var a1 := agents[i];
      if a1.id !in enacted {
        enacted := enacted[a1.id := DestroyTogetherFail];
        enacted := TryBlocks(w, agents, a1, EntitiesAt(w.entities, a1.pos), enacted);
      }
      i := i + 1;
    }
  }

  /** The middle loop: every block that covered `a1`'s cell when its turn came. */
  method TryBlocks(w: World, agents: seq<Entity>, a1: Entity, at: seq<Entity>, enacted0: map<nat, Interaction>)
    returns (enacted: map<nat, Interaction>)
    requires w.Valid()
    modifies w
    ensures w.Valid()
    ensures Tick(w.entities, w.nextId, enacted) == Blocks(agents, a1, at, 0, Tick(old(w.entities), old(w.nextId), enacted0))
    ensures w.width == old(w.width) && w.height == old(w.height)
  {
    enacted := enacted0;
    var k := 0;
    while k < |at|
      invariant k <= |at| && w.Valid()
      invariant Blocks(agents, a1, at, k, Tick(w.entities, w.nextId, enacted))
             == Blocks(agents, a1, at, 0, Tick(old(w.entities), old(w.nextId), enacted0))
      invariant w.width == old(w.width) && w.height == old(w.height)
    {
      if at[k].kind == Block {
        enacted := TryPartners(w, agents, a1, at[k], enacted);
      }
      k := k + 1;
    }
  }

  /** The innermost loop: every other agent, at another position, that touches `block`. */
  method TryPartners(w: World, agents: seq<Entity>, a1: Entity, block: Entity, enacted0: map<nat, Interaction>)
    returns (enacted: map<nat, Interaction>)
    requires w.Valid()
    modifies w
    ensures w.Valid()
    ensures Tick(w.entities, w.nextId, enacted) == Partners(agents, a1, block, 0, Tick(old(w.entities), old(w.nextId), enacted0))
    ensures w.width == old(w.width) && w.height == old(w.height)
  {
    enacted := enacted0;
    var j := 0;
    while j < |agents|
      invariant j <= |agents| && w.Valid()
      invariant Partners(agents, a1, block, j, Tick(w.entities, w.nextId, enacted))
             == Partners(agents, a1, block, 0, Tick(old(w.entities), old(w.nextId), enacted0))
      invariant w.width == old(w.width) && w.height == old(w.height)
    {
      var a2 := agents[j];
      if a2.id != a1.id && a2.pos != a1.pos && block in EntitiesAt(w.entities, a2.pos) {
        ghost var before := Tick(w.entities, w.nextId, enacted);
        w.RemoveEntity(block);
        var food1 := w.AddEntity(Food, block.pos, 1);
        var food2 := w.AddEntity(Food, Below(block.pos), 1);
        enacted := enacted[a1.id := DestroyTogetherOk][a2.id := DestroyTogetherOk];
        assert w.entities == Remove(before.entities, block) + [food1, food2];
        assert Tick(w.entities, w.nextId, enacted) == Shatter(before, block, a1, a2);
      }
      j := j + 1;
    }
  }

  // ---------------------------------------------------------------------------
  // The enacted map: one entry per attempting agent, success or failure

  /** Every entry of the enacted map is for one of `ids` and is success or failure. */
  predicate Reports(t: Tick, ids: set<nat>) {
    && t.enacted.Keys <= ids
    && forall id :: id in t.enacted ==> t.enacted[id] == DestroyTogetherOk || t.enacted[id] == DestroyTogetherFail
  }

  lemma {:induction false} PartnersReports(agents: seq<Entity>, a1: Entity, block: Entity, j: nat, t: Tick)
    requires j <= |agents| && a1.id in Ids(agents) && Reports(t, Ids(agents))
    ensures Reports(Partners(agents, a1, block, j, t), Ids(agents))
    ensures t.enacted.Keys <= Partners(agents, a1, block, j, t).enacted.Keys
    decreases |agents| - j
  {
    if j < |agents| {
      var a2 := agents[j];
      assert a2 in agents;
      if a2.id != a1.id && a2.pos != a1.pos && block in EntitiesAt(t.entities, a2.pos) {
        PartnersReports(agents, a1, block, j + 1, Shatter(t, block, a1, a2));
      } else {
        PartnersReports(agents, a1, block, j + 1, t);
      }
    }
  }

  lemma {:induction false} BlocksReports(agents: seq<Entity>, a1: Entity, at: seq<Entity>, k: nat, t: Tick)
    requires k <= |at| && a1.id in Ids(agents) && Reports(t, Ids(agents))
    ensures Reports(Blocks(agents, a1, at, k, t), Ids(agents))
    ensures t.enacted.Keys <= Blocks(agents, a1, at, k, t).enacted.Keys
    decreases |at| - k
  {
    if k < |at| {
      if at[k].kind == Block {
        PartnersReports(agents, a1, at[k], 0, t);
        BlocksReports(agents, a1, at, k + 1, Partners(agents, a1, at[k], 0, t));
      } else {
        BlocksReports(agents, a1, at, k + 1, t);
      }
    }
  }

  lemma {:induction false} ResolveReports(agents: seq<Entity>, i: nat, t: Tick)
    requires i <= |agents| && Reports(t, Ids(agents))
    requires forall j :: 0 <= j < i ==> agents[j].id in t.enacted
    ensures Reports(Resolve(agents, i, t), Ids(agents))
    ensures Resolve(agents, i, t).enacted.Keys == Ids(agents)
    decreases |agents| - i
  {
    if i == |agents| {
      forall id | id in Ids(agents) ensures id in t.enacted {
        var a :| a in agents && a.id == id;
        var j :| 0 <= j < |agents| && agents[j] == a;
      }
    } else {
      var a1 := agents[i];
      assert a1 in agents;
      if a1.id in t.enacted {
        ResolveReports(agents, i + 1, t);
      } else {
        var t1 := t.(enacted := t.enacted[a1.id := DestroyTogetherFail]);
        var at := EntitiesAt(t1.entities, a1.pos);
        BlocksReports(agents, a1, at, 0, t1);
        ResolveReports(agents, i + 1, Blocks(agents, a1, at, 0, t1));
      }
    }
  }

  /**
   * The enacted map has exactly the attempting agents as keys, and each of
   * them gets the success or the failure variant.
   */
  lemma EnactedCoversTheAgents(agents: seq<Entity>, entities: seq<Entity>, nextId: nat)
    ensures Resolved(agents, entities, nextId).enacted.Keys == Ids(agents)
    ensures forall id :: id in Resolved(agents, entities, nextId).enacted ==>
      Resolved(agents, entities, nextId).enacted[id] in {DestroyTogetherOk, DestroyTogetherFail}
  {
    ResolveReports(agents, 0, Tick(entities, nextId, map[]));
  }

  // ---------------------------------------------------------------------------
  // Agents that cannot collaborate

  /** Every agent of `ids` failed. */
  function AllFail(ids: set<nat>): map<nat, Interaction> {
    map id | id in ids :: DestroyTogetherFail
  }

  /** With no agent at another position, no partner is ever found. */
  lemma {:induction false} PartnersIdle(agents: seq<Entity>, a1: Entity, block: Entity, j: nat, t: Tick)
    requires j <= |agents| && forall a :: a in agents ==> a.pos == a1.pos
    ensures Partners(agents, a1, block, j, t) == t
    decreases |agents| - j
  {
    if j < |agents| {
      assert agents[j] in agents;
      PartnersIdle(agents, a1, block, j + 1, t);
    }
  }

  lemma {:induction false} BlocksIdle(agents: seq<Entity>, a1: Entity, at: seq<Entity>, k: nat, t: Tick)
    requires k <= |at| && forall a :: a in agents ==> a.pos == a1.pos
    ensures Blocks(agents, a1, at, k, t) == t
    decreases |at| - k
  {
    if k < |at| {
      if at[k].kind == Block {
        PartnersIdle(agents, a1, at[k], 0, t);
      }
      BlocksIdle(agents, a1, at, k + 1, t);
    }
  }

  lemma {:induction false} ResolveIdle(agents: seq<Entity>, i: nat, entities: seq<Entity>, nextId: nat, p: Pos)
    requires i <= |agents| && forall a :: a in agents ==> a.pos == p
    ensures Resolve(agents, i, Tick(entities, nextId, AllFail(Ids(agents[..i]))))
         == Tick(entities, nextId, AllFail(Ids(agents)))
    decreases |agents| - i
  {
    if i == |agents| {
      assert agents[..i] == agents;
    } else {
      var a1 := agents[i];
      assert a1 in agents;
      assert Ids(agents[..i + 1]) == Ids(agents[..i]) + {a1.id} by {
        assert agents[..i + 1] == agents[..i] + [a1];
      }
      var t := Tick(entities, nextId, AllFail(Ids(agents[..i])));
      if a1.id in t.enacted {
        assert Ids(agents[..i + 1]) == Ids(agents[..i]);
      } else {
        var t1 := t.(enacted := t.enacted[a1.id := DestroyTogetherFail]);
        assert t1.enacted == AllFail(Ids(agents[..i + 1]));
        BlocksIdle(agents, a1, EntitiesAt(t1.entities, a1.pos), 0, t1);
      }
      ResolveIdle(agents, i + 1, entities, nextId, p);
    }
  }

  /**
   * Agents that all stand at one position never destroy anything: every one
   * of them fails and the world is unchanged.
   */
  lemma SharedPositionFails(agents: seq<Entity>, entities: seq<Entity>, nextId: nat, p: Pos)
    requires forall a :: a in agents ==> a.pos == p
    ensures Resolved(agents, entities, nextId) == Tick(entities, nextId, AllFail(Ids(agents)))
  {
    assert Ids(agents[..0]) == {};
    assert AllFail({}) == map[];
    ResolveIdle(agents, 0, entities, nextId, p);
  }

  /** A lone agent cannot destroy a block: it fails and the world is unchanged. */
  lemma LoneAgentFails(a: Entity, entities: seq<Entity>, nextId: nat)
    ensures Resolved([a], entities, nextId) == Tick(entities, nextId, map[a.id := DestroyTogetherFail])
  {
    SharedPositionFails([a], entities, nextId, a.pos);
    assert Ids([a]) == {a.id};
    assert AllFail({a.id}) == map[a.id := DestroyTogetherFail];
  }

  // ---------------------------------------------------------------------------
  // Two agents on one block

  /** The inner loop for agents [a, b] on `block`: b is a partner exactly when it touches the block. */
  lemma PartnersOfPair(a: Entity, b: Entity, block: Entity, t: Tick)
    requires a.id != b.id && a.pos != b.pos
    ensures Partners([a, b], a, block, 0, t)
         == if block in EntitiesAt(t.entities, b.pos) then Shatter(t, block, a, b) else t
  {
    assert Partners([a, b], a, block, 0, t) == Partners([a, b], a, block, 1, t);
  }

  /** When `block` is the only block in at[k..], the middle loop does the pair's work at most once. */
  lemma {:induction false} BlocksOfPair(a: Entity, b: Entity, block: Entity, at: seq<Entity>, k: nat, t: Tick)
    requires a.id != b.id && a.pos != b.pos && block.kind == Block && k <= |at|
    requires forall e :: e in at[k..] && e.kind == Block ==> e == block
    ensures Blocks([a, b], a, at, k, t)
         == if block in at[k..] then Partners([a, b], a, block, 0, t) else t
    decreases |at| - k
  {
    if k < |at| {
      assert at[k..] == [at[k]] + at[k + 1..];
      assert forall e :: e in at[k + 1..] ==> e in at[k..];
      if at[k].kind == Block {
        var u := Partners([a, b], a, block, 0, t);
        PartnersOfPair(a, b, block, t);
        PartnersOfPair(a, b, block, u);
        BlocksOfPair(a, b, block, at, k + 1, u);
        assert Partners([a, b], a, block, 0, u) == u;
      } else {
        BlocksOfPair(a, b, block, at, k + 1, t);
      }
    }
  }

  /**
   * Two agents at different positions that both touch the only block at the
   * first agent's cell destroy it: the block is replaced by food at its
   * position and just below, and both agents succeed.
   */
  lemma PairDestroysBlock(a: Entity, b: Entity, block: Entity, entities: seq<Entity>, nextId: nat)
    requires a.id != b.id && a.pos != b.pos
    requires block in entities && block.kind == Block && Occupies(block, a.pos) && Occupies(block, b.pos)
    requires forall e :: e in entities && e.kind == Block && Occupies(e, a.pos) ==> e == block
    ensures Resolved([a, b], entities, nextId) == Tick(
      Remove(entities, block)
        + [Entity(nextId, Food, block.pos, 1, 0), Entity(nextId + 1, Food, Below(block.pos), 1, 0)],
      nextId + 2,
      map[a.id := DestroyTogetherOk, b.id := DestroyTogetherOk])
  {
    var t0 := Tick(entities, nextId, map[]);
    var t1 := Tick(entities, nextId, map[a.id := DestroyTogetherFail]);
    var t2 := Shatter(t1, block, a, b);
    var food := [Entity(nextId, Food, block.pos, 1, 0), Entity(nextId + 1, Food, Below(block.pos), 1, 0)];
    var done := map[a.id := DestroyTogetherOk, b.id := DestroyTogetherOk];
    assert t2.enacted == done by {
      assert t2.enacted.Keys == done.Keys;
    }
    assert t2 == Tick(Remove(entities, block) + food, nextId + 2, done);
    var at := EntitiesAt(entities, a.pos);
    assert block in at;
    assert at[0..] == at;
    BlocksOfPair(a, b, block, at, 0, t1);
    assert block in EntitiesAt(t1.entities, b.pos);
    PartnersOfPair(a, b, block, t1);
    assert Blocks([a, b], a, at, 0, t1) == t2;
    assert t0.(enacted := t0.enacted[a.id := DestroyTogetherFail]) == t1;
    assert Resolve([a, b], 0, t0) == Resolve([a, b], 1, t2);
    assert b.id in t2.enacted;
    assert Resolve([a, b], 1, t2) == t2;
  }
}
