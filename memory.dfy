/**
 * The interaction memory of one agent: the primitive and composite
 * interactions it knows (each list in insertion order), the valence of every
 * primitive interaction and the weight of every known interaction.
 */
module InteractionMemories {
  import opened Interactions

  /** The outcome of an operation that may raise TypeError. */
  datatype Outcome = Pass | Fail(error: string)

  /** A value, or the TypeError the source raises instead. */
  datatype Result<T> = Success(value: T) | Failure(error: string)

  const NotPrimitiveOrComposite := "Expected interaction_ to be either primitive or composite."
  const NotPrimitive := "Expected interaction to be primitive."

  /** Every interaction of `s` has an entry in `table` (a valence or a weight). */
  predicate Covers(table: map<Interaction, real>, s: seq<Interaction>) {
    forall x :: x in s ==> x in table
  }

  /** Reference definition: the sum of the entries of `table` for the interactions of `s`. */
  function SumOf(table: map<Interaction, real>, s: seq<Interaction>): real
    requires Covers(table, s)
  {
    if s == [] then 0.0 else SumOf(table, s[..|s| - 1]) + table[s[|s| - 1]]
  }

  lemma {:induction false} SumOfConcat(table: map<Interaction, real>, a: seq<Interaction>, b: seq<Interaction>)
    requires Covers(table, a) && Covers(table, b)
    ensures Covers(table, a + b)
    ensures SumOf(table, a + b) == SumOf(table, a) + SumOf(table, b)
  {
    if b != [] {
      var b' := b[..|b| - 1];
      SumOfConcat(table, a, b');
      var ab := a + b;
      assert ab[..|ab| - 1] == a + b';
      assert ab[|ab| - 1] == b[|b| - 1];
      assert SumOf(table, ab) == SumOf(table, a + b') + table[b[|b| - 1]];
    } else {
      assert a + b == a;
    }
  }

  /**
   * reduce(lambda x, y: x + valences[y], s, acc): a left fold over `s`
   * starting from `acc`, which adds up the same valences as SumOf.
   */
  function FoldValences(valences: map<Interaction, real>, acc: real, s: seq<Interaction>): (total: real)
    requires Covers(valences, s)
    ensures total == acc + SumOf(valences, s)
    decreases |s|
  {
    if s == [] then acc
    else
      assert s == [s[0]] + s[1..];
      SumOfConcat(valences, [s[0]], s[1..]);
      FoldValences(valences, acc + valences[s[0]], s[1..])
  }

  class InteractionMemory {
    var primitiveInteractions: seq<Interaction>
    var compositeInteractions: seq<Interaction>
    var valences: map<Interaction, real>
    var weights: map<Interaction, real>

    /**
     * The invariant the operations keep: the lists hold only interactions of
     * their own kind, each of them weighed, every primitive has a valence and
     * only primitives have one.
     */
    ghost predicate Valid()
      reads this
    {
      && (forall p :: p in primitiveInteractions ==> p.Primitive? && p in valences && p in weights)
      && (forall c :: c in compositeInteractions ==> c.Composite? && c in weights)
      && (forall k :: k in valences ==> k.Primitive?)
    }

    constructor ()
      ensures Valid()
      ensures primitiveInteractions == [] && compositeInteractions == []
      ensures valences == map[] && weights == map[]
    {
      primitiveInteractions := [];
      compositeInteractions := [];
      valences := map[];
      weights := map[];
    }

    /** add_interaction: record a new interaction with a weight and, for a primitive, a valence. */
    method AddInteraction(i: Interaction, weight: real := 1.0, valence: real := 0.0) returns (outcome: Outcome)
      requires Valid()
      modifies this
      ensures Valid()
      ensures outcome.Fail? <==> i.Perception?
      ensures i.Primitive? ==>
        && primitiveInteractions == old(primitiveInteractions) + [i]
        && compositeInteractions == old(compositeInteractions)
        && valences == old(valences)[i := valence]
        && weights == old(weights)[i := weight]
      ensures i.Composite? ==>
        && compositeInteractions == old(compositeInteractions) + [i]
        && primitiveInteractions == old(primitiveInteractions)
        && valences == old(valences)
        && weights == old(weights)[i := weight]
      ensures i.Perception? ==> outcome == Fail(NotPrimitiveOrComposite) && unchanged(this)
    {
      match i {
        case Primitive(_, _) =>
          primitiveInteractions := primitiveInteractions + [i];
          valences := valences[i := valence];
        case Composite(_, _) =>
          compositeInteractions := compositeInteractions + [i];
        case Perception(_, _) =>
          return Fail(NotPrimitiveOrComposite);
      }
      weights := weights[i := weight];
      outcome := Pass;
    }

    /** increment_weight: the interaction must already be weighed (KeyError otherwise). */
    method IncrementWeight(i: Interaction)
      requires Valid()
      requires i in weights
      modifies this
      ensures Valid()
      ensures weights == old(weights)[i := old(weights)[i] + 1.0]
      ensures GetWeight(i) == old(GetWeight(i)) + 1.0
      ensures forall j :: j in old(weights) && j != i ==> GetWeight(j) == old(GetWeight(j))
      ensures weights.Keys == old(weights).Keys
      ensures primitiveInteractions == old(primitiveInteractions)
      ensures compositeInteractions == old(compositeInteractions)
      ensures valences == old(valences)
    {
      weights := weights[i := weights[i] + 1.0];
    }

    /** set_weight: any interaction may be given a weight. */
    method SetWeight(i: Interaction, weight: real)
      requires Valid()
      modifies this
      ensures Valid()
      ensures weights == old(weights)[i := weight]
      ensures GetWeight(i) == weight
      ensures primitiveInteractions == old(primitiveInteractions)
      ensures compositeInteractions == old(compositeInteractions)
      ensures valences == old(valences)
    {
      weights := weights[i := weight];
    }

    /** get_weight: the stored weight; an absent key is a KeyError in the source. */
    function GetWeight(i: Interaction): (w: real)
      reads this
      requires i in weights
      ensures w in weights.Values
    {
      weights[i]
    }

    /** set_valence: only a primitive interaction carries a valence. */
    method SetValence(i: Interaction, valence: real) returns (outcome: Outcome)
      requires Valid()
      modifies this
      ensures Valid()
      ensures outcome.Pass? <==> i.Primitive?
      ensures i.Primitive? ==> valences == old(valences)[i := valence]
      ensures !i.Primitive? ==> outcome == Fail(NotPrimitive) && valences == old(valences)
      ensures primitiveInteractions == old(primitiveInteractions)
      ensures compositeInteractions == old(compositeInteractions)
      ensures weights == old(weights)
    {
      if i.Primitive? {
        valences := valences[i := valence];
        outcome := Pass;
      } else {
        outcome := Fail(NotPrimitive);
      }
    }

    /**
     * get_valence: a primitive's stored valence, or for a composite the sum of
     * the stored valences of its unwrapped primitives (an absent valence is a
     * KeyError in the source, hence the requires clauses).
     */
    function GetValence(i: Interaction): (r: Result<real>)
      reads this
      requires i.Primitive? ==> i in valences
      requires i.Composite? ==> Covers(valences, Unwrap(i))
      ensures r.Failure? <==> i.Perception?
      ensures i.Primitive? ==> r == Success(valences[i])
      ensures i.Composite? ==> r == Success(SumOf(valences, Unwrap(i)))
    {
      match i
      case Primitive(_, _) => Success(valences[i])
      case Composite(_, _) => Success(FoldValences(valences, 0.0, Unwrap(i)))
      case Perception(_, _) => Failure(NotPrimitiveOrComposite)
    }

    /** get_all_interactions: the primitives, then the composites, each in insertion order. */
    function AllInteractions(): (all: seq<Interaction>)
      reads this
      ensures |all| == |primitiveInteractions| + |compositeInteractions|
      ensures all[..|primitiveInteractions|] == primitiveInteractions
      ensures all[|primitiveInteractions|..] == compositeInteractions
      ensures Valid() ==> forall x :: x in all ==> x in weights && !x.Perception?
    {
      primitiveInteractions + compositeInteractions
    }
  }

  /**
   * A composite's valence is additive: it is the valence of its pre plus the
   * valence of its post, whichever of them is primitive or composite.
   */
  lemma CompositeValenceSplits(m: InteractionMemory, pre: Interaction, post: Interaction)
    requires !pre.Perception? && !post.Perception?
    requires Covers(m.valences, Unwrap(pre)) && Covers(m.valences, Unwrap(post))
    ensures Covers(m.valences, Unwrap(Composite(pre, post)))
    ensures m.GetValence(Composite(pre, post))
         == Success(m.GetValence(pre).value + m.GetValence(post).value)
  {
    var v := m.valences;
    SumOfConcat(v, Unwrap(pre), Unwrap(post));
    assert Unwrap(Composite(pre, post)) == Unwrap(pre) + Unwrap(post);
    SingleValence(v, pre);
    SingleValence(v, post);
  }

  /** The valence of a primitive or composite, as GetValence reports it, is the sum over its leaves. */
  lemma SingleValence(v: map<Interaction, real>, i: Interaction)
    requires !i.Perception? && Covers(v, Unwrap(i))
    ensures i.Primitive? ==> i in v && SumOf(v, Unwrap(i)) == v[i]
  {
    if i.Primitive? {
      assert Unwrap(i) == [i];
      assert [i][..0] == [];
    }
  }
}
