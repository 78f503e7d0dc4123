/**
 * Boredom handlers: each maps (interaction memory, proposed interaction, raw
 * valence) to a discounted valence, reading the memory and never changing it.
 *
 * The memory's get_total_weight and get_interaction_history are not part of
 * this model; a handler receives their values in a MemoryView. math.sqrt is
 * received as a function `sqrt` of which only SqrtSpec is assumed, and
 * get_name as a `Naming`.
 */
module Boredom {
  import opened Interactions
  import opened InteractionMemories

  /** RepetitiveBoredomHandler.HISTORY_CONSIDER_SIZE */
  const HistoryConsiderSize: nat := 15

  /** What a handler reads from the interaction memory. */
  datatype MemoryView = MemoryView(
    weights: map<Interaction, real>,
    totalWeight: real,
    history: seq<Interaction>)

  /** `sqrt` is a square root on the non-negative reals. */
  ghost predicate SqrtSpec(sqrt: real -> real) {
    forall x: real :: 0.0 <= x ==> 0.0 <= sqrt(x) && sqrt(x) * sqrt(x) == x
  }

  lemma SqrtOfSquare(sqrt: real -> real, a: real)
    requires SqrtSpec(sqrt) && 0.0 <= a
    ensures sqrt(a * a) == a
  {
    var s := sqrt(a * a);
    assert 0.0 <= s && s * s == a * a;
    SquareInjective(s, a);
  }

  /** On the non-negative reals, squaring is injective. */
  lemma SquareInjective(s: real, a: real)
    requires 0.0 <= s && 0.0 <= a && s * s == a * a
    ensures s == a
  {
    assert (s - a) * (s + a) == s * s - a * a;
    if s != a {
      ZeroProduct(s - a, s + a);
    }
  }

  lemma ZeroProduct(x: real, y: real)
    requires x * y == 0.0 && x != 0.0
    ensures y == 0.0
  {
    assert y == (x * y) / x;
  }

  lemma QuotientNonNegative(dot: real, s1: real, s2: real)
    requires 0.0 < s1 && 0.0 < s2 && 0.0 <= dot
    ensures 0.0 < s1 * s2 && 0.0 <= dot / (s1 * s2)
  {
  }

  lemma SelfQuotient(x: real)
    requires x != 0.0
    ensures x / x == 1.0
  {
  }

  lemma SquareOfZero(s: real)
    ensures s == 0.0 ==> s * s == 0.0
  {
  }

  lemma SqrtPositive(sqrt: real -> real, x: real)
    requires SqrtSpec(sqrt) && 0.0 < x
    ensures 0.0 < sqrt(x)
  {
    var s := sqrt(x);
    assert 0.0 <= s && s * s == x;
    SquareOfZero(s);
  }

  // ---------------------------------------------------------------------------
  // PassthroughBoredomHandler

  /** No boredom measure: the raw valence comes back unchanged. */
  function PassthroughBoredom(memory: MemoryView, i: Interaction, raw: real): (v: real)
    ensures v == raw
  {
    raw
  }

  // ---------------------------------------------------------------------------
  // WeightBoredomHandler

  /** Every node of the composite tree of `i` has a weight (get_weight raises KeyError otherwise). */
  predicate Weighed(weights: map<Interaction, real>, i: Interaction) {
    && i in weights
    && (i.Composite? ==> Weighed(weights, i.pre) && Weighed(weights, i.post))
  }

  predicate NonNegativeWeights(weights: map<Interaction, real>) {
    forall j :: j in weights ==> weights[j] >= 0.0
  }

  /**
   * interaction_total_weight: the interaction's own weight plus, for a
   * composite, the hierarchical weights of its pre and post.
   */
  function HierarchicalWeight(weights: map<Interaction, real>, i: Interaction): (w: real)
    requires Weighed(weights, i)
    ensures NonNegativeWeights(weights) ==> weights[i] <= w
  {
    match i
    case Composite(pre, post) =>
      weights[i] + HierarchicalWeight(weights, pre) + HierarchicalWeight(weights, post)
    case _ => weights[i]
  }

  /** The hierarchical weight is the sum of the weights of every node of the tree. */
  lemma {:induction false} HierarchicalWeightIsNodeSum(weights: map<Interaction, real>, i: Interaction)
    requires Weighed(weights, i)
    ensures Covers(weights, Nodes(i))
    ensures HierarchicalWeight(weights, i) == SumOf(weights, Nodes(i))
  {
    match i
    case Composite(pre, post) =>
      HierarchicalWeightIsNodeSum(weights, pre);
      HierarchicalWeightIsNodeSum(weights, post);
      SumOfConcat(weights, [i], Nodes(pre));
      SumOfConcat(weights, [i] + Nodes(pre), Nodes(post));
      assert SumOf(weights, [i]) == weights[i] by { assert [i][..0] == []; }
    case _ =>
      assert Nodes(i) == [i] && [i][..0] == [];
  }

  /**
   * process_boredom of the weight handler: a positive raw valence is scaled
   * by 1 - (hierarchical weight / total weight); any other valence passes
   * through. The source divides by the total weight only for a positive raw
   * valence, so only then must the total be positive.
   */
  function WeightBoredom(memory: MemoryView, i: Interaction, raw: real): (v: real)
    requires raw > 0.0 ==> memory.totalWeight > 0.0 && Weighed(memory.weights, i)
    ensures raw <= 0.0 ==> v == raw
    ensures raw > 0.0 ==>
      v == raw * (1.0 - HierarchicalWeight(memory.weights, i) / memory.totalWeight)
    ensures raw > 0.0 && 0.0 <= HierarchicalWeight(memory.weights, i) <= memory.totalWeight ==>
      0.0 <= v <= raw
  {
    if raw > 0.0 then
      var total := memory.totalWeight;
      var weight := HierarchicalWeight(memory.weights, i);
      var modifier := 1.0 - weight / total;
      assert 0.0 <= weight <= total ==> 0.0 <= modifier <= 1.0 by {
        if 0.0 <= weight <= total {
          assert weight / total <= 1.0 by { assert weight / total * total == weight; }
        }
      }
      raw * modifier
    else
      raw
  }

  // ---------------------------------------------------------------------------
  // RepetitiveBoredomHandler

  /** history[-HISTORY_CONSIDER_SIZE:]: the most recent entries, at most 15 of them. */
  function Recent(history: seq<Interaction>): (recent: seq<Interaction>)
    ensures |recent| == if |history| <= HistoryConsiderSize then |history| else HistoryConsiderSize
    ensures recent == history[|history| - |recent|..]
  {
    if |history| <= HistoryConsiderSize then history
    else history[|history| - HistoryConsiderSize..]
  }

  /** The name an interaction is counted under: a perception interaction counts as its primitive. */
  function CountKey(name: Naming, x: Interaction): string {
    if x.Perception? then name(x.wrapped) else name(x)
  }

  /** count_interactions, as a Counter: how often each name occurs in `s`. */
  function Counts(name: Naming, s: seq<Interaction>): (c: multiset<string>)
    ensures |c| == |s|
    ensures forall x :: x in s ==> CountKey(name, x) in c
  {
    if s == [] then multiset{}
    else
      var init := s[..|s| - 1];
      assert forall x :: x in s ==> x in init || x == s[|s| - 1];
      Counts(name, init) + multiset{CountKey(name, s[|s| - 1])}
  }

  /** count_interactions: the loop that fills the Counter. */
  method CountInteractions(name: Naming, s: seq<Interaction>) returns (count: multiset<string>)
    ensures count == Counts(name, s)
  {
    count := multiset{};
    for j := 0 to |s|
      invariant count == Counts(name, s[..j])
    {
      assert s[..j + 1][..j] == s[..j];
      count := count + multiset{CountKey(name, s[j])};
    }
    assert s[..|s|] == s;
  }

  /** The names that occur in a count (the keys of the Counter). */
  function Support(c: multiset<string>): set<string> {
    set k | k in c
  }

  /** The sum of c1[k] * c2[k] over the names `keys`. */
  ghost function DotOver(keys: set<string>, c1: multiset<string>, c2: multiset<string>): int
    decreases keys
  {
    if keys == {} then 0
    else
      var k :| k in keys;
      c1[k] * c2[k] + DotOver(keys - {k}, c1, c2)
  }

  /** The sum does not depend on the order in which the names are taken. */
  lemma DotOverRemove(keys: set<string>, c1: multiset<string>, c2: multiset<string>, k: string)
    requires k in keys
    ensures DotOver(keys, c1, c2) == c1[k] * c2[k] + DotOver(keys - {k}, c1, c2)
    decreases keys
  {
    var j :| j in keys && DotOver(keys, c1, c2) == c1[j] * c2[j] + DotOver(keys - {j}, c1, c2);
    if j != k {
      DotOverRemove(keys - {j}, c1, c2, k);
      DotOverRemove(keys - {k}, c1, c2, j);
      assert keys - {j} - {k} == keys - {k} - {j};
    }
  }

  lemma DotOverNonNegative(keys: set<string>, c1: multiset<string>, c2: multiset<string>)
    ensures DotOver(keys, c1, c2) >= 0
    decreases keys
  {
    if keys != {} {
      var k :| k in keys;
      DotOverRemove(keys, c1, c2, k);
      DotOverNonNegative(keys - {k}, c1, c2);
    }
  }

  lemma DotOverSelfPositive(keys: set<string>, c: multiset<string>)
    requires keys != {} && keys <= Support(c)
    ensures DotOver(keys, c, c) > 0
  {
    var k :| k in keys;
    DotOverRemove(keys, c, c, k);
    DotOverNonNegative(keys - {k}, c, c);
    assert c[k] > 0;
  }

  /** The dot product of two counts, summed over the keys of the first. */
  ghost function Dot(c1: multiset<string>, c2: multiset<string>): int {
    DotOver(Support(c1), c1, c2)
  }

  /** The squared length of a count. */
  ghost function LengthSquared(c: multiset<string>): int {
    Dot(c, c)
  }

  /** A count has zero length exactly when it is empty. */
  lemma LengthSquaredZero(c: multiset<string>)
    ensures LengthSquared(c) >= 0
    ensures LengthSquared(c) == 0 <==> c == multiset{}
  {
    DotOverNonNegative(Support(c), c, c);
    if c != multiset{} {
      var k :| k in c;
      assert k in Support(c);
      DotOverSelfPositive(Support(c), c);
    } else {
      assert Support(c) == {};
    }
  }

  /**
   * Cauchy-Schwarz for the accumulated sums: over any set of names, the
   * squared dot product is at most the product of the squared lengths.
   */
  lemma {:induction false} CauchySchwarz(keys: set<string>, c1: multiset<string>, c2: multiset<string>)
    ensures DotOver(keys, c1, c2) * DotOver(keys, c1, c2) <= DotOver(keys, c1, c1) * DotOver(keys, c2, c2)
    decreases keys
  {
    if keys != {} {
      var k :| k in keys;
      var rest := keys - {k};
      DotOverRemove(keys, c1, c2, k);
      DotOverRemove(keys, c1, c1, k);
      DotOverRemove(keys, c2, c2, k);
      CauchySchwarz(rest, c1, c2);
      DotOverNonNegative(rest, c1, c1);
      DotOverNonNegative(rest, c2, c2);
      CauchySchwarzStep(DotOver(rest, c1, c2), DotOver(rest, c1, c1), DotOver(rest, c2, c2), c1[k], c2[k]);
    }
  }

  /** Adding one name's terms keeps the Cauchy-Schwarz inequality. */
  lemma CauchySchwarzStep(a: int, p: int, q: int, x: int, y: int)
    requires 0 <= p && 0 <= q && a * a <= p * q
    ensures (x * y + a) * (x * y + a) <= (x * x + p) * (y * y + q)
  {
    CrossTermBound(a, p, q, x, y);
    assert (x * y + a) * (x * y + a) == x * x * (y * y) + 2 * a * x * y + a * a;
    assert (x * x + p) * (y * y + q) == x * x * (y * y) + p * y * y + q * x * x + p * q;
  }

  /** 2axy <= py^2 + qx^2 when a^2 <= pq, since p(py^2 + qx^2 - 2axy) = (py - ax)^2 + (pq - a^2)x^2. */
  lemma CrossTermBound(a: int, p: int, q: int, x: int, y: int)
    requires 0 <= p && 0 <= q && a * a <= p * q
    ensures 2 * a * x * y <= p * y * y + q * x * x
  {
    NonNegativeProduct(q, x * x);
    NonNegativeProduct(p, y * y);
    if p == 0 {
      assert a * a <= 0;
    } else {
      var d := p * y * y + q * x * x - 2 * a * x * y;
      var u := p * y - a * x;
      assert p * d == u * u + (p * q - a * a) * (x * x);
      NonNegativeProduct(u, u);
      NonNegativeProduct(p * q - a * a, x * x);
    }
  }

  lemma NonNegativeProduct(u: int, v: int)
    ensures (0 <= u && 0 <= v) || (u <= 0 && v <= 0) ==> 0 <= u * v
    ensures u == v ==> 0 <= u * v
  {
  }

  /** Restricting the squared length of a count to fewer names never makes it larger. */
  lemma {:induction false} DotOverAtMostLength(keys: set<string>, t: set<string>, c: multiset<string>)
    requires forall k :: k in keys && k in c ==> k in t
    ensures DotOver(keys, c, c) <= DotOver(t, c, c)
    decreases keys
  {
    if keys == {} {
      DotOverNonNegative(t, c, c);
    } else {
      var k :| k in keys;
      DotOverRemove(keys, c, c, k);
      if k in c {
        DotOverRemove(t, c, c, k);
        DotOverAtMostLength(keys - {k}, t - {k}, c);
      } else {
        DotOverAtMostLength(keys - {k}, t, c);
      }
    }
  }

  /** The squared dot product of two counts is at most the product of their squared lengths. */
  lemma DotSquaredBound(c1: multiset<string>, c2: multiset<string>)
    ensures Dot(c1, c2) * Dot(c1, c2) <= LengthSquared(c1) * LengthSquared(c2)
  {
    var s1 := Support(c1);
    CauchySchwarz(s1, c1, c2);
    DotOverAtMostLength(s1, Support(c2), c2);
    DotOverNonNegative(s1, c1, c1);
    var d, l1, d2, l2 := Dot(c1, c2), LengthSquared(c1), DotOver(s1, c2, c2), LengthSquared(c2);
    assert d * d <= l1 * d2;
    assert 0 <= l1 && d2 <= l2;
    ScaleBound(l1, d2, l2);
  }

  lemma ScaleBound(l: int, a: int, b: int)
    requires 0 <= l && a <= b
    ensures l * a <= l * b
  {
    NonNegativeProduct(l, b - a);
    assert l * (b - a) == l * b - l * a;
  }

  /**
   * similarity: the cosine similarity of two counts, or -1 when the first
   * count has length zero. When the first count is not empty the second one
   * must not be either (the source divides by its length).
   */
  ghost function Similarity(c1: multiset<string>, c2: multiset<string>, sqrt: real -> real): (sim: real)
    requires SqrtSpec(sqrt)
    requires c1 != multiset{} ==> c2 != multiset{}
    ensures c1 == multiset{} ==> sim == -1.0
    ensures c1 != multiset{} ==> 0.0 <= sim <= 1.0
    ensures c1 != multiset{} && c1 == c2 ==> sim == 1.0
  {
    LengthSquaredZero(c1);
    LengthSquaredZero(c2);
    var sim := Cosine(Dot(c1, c2), LengthSquared(c1), LengthSquared(c2), sqrt);
    assert c1 != multiset{} ==> 0.0 <= sim <= 1.0 && (c1 == c2 ==> sim == 1.0) by {
      if c1 != multiset{} {
        CosineFacts(c1, c2, sqrt);
      }
    }
    sim
  }

  /** The closing step of similarity: -1 for a zero first length, else the cosine. */
  function Cosine(dot: int, len1: int, len2: int, sqrt: real -> real): real
    requires SqrtSpec(sqrt)
    requires 0 <= len1 && 0 <= len2 && (len1 != 0 ==> len2 != 0)
  {
    if len1 == 0 then -1.0
    else
      SqrtPositive(sqrt, len1 as real);
      SqrtPositive(sqrt, len2 as real);
      (dot as real) / (sqrt(len1 as real) * sqrt(len2 as real))
  }

  /**
   * The cosine of non-negative integer sums is non-negative, 1 when all three
   * sums agree, and at most 1 when the sums satisfy Cauchy-Schwarz.
   */
  lemma CosineBounds(dot: int, len1: int, len2: int, sqrt: real -> real)
    requires SqrtSpec(sqrt)
    requires 0 < len1 && 0 < len2 && 0 <= dot
    ensures 0.0 <= Cosine(dot, len1, len2, sqrt)
    ensures dot == len1 == len2 ==> Cosine(dot, len1, len2, sqrt) == 1.0
    ensures dot * dot <= len1 * len2 ==> Cosine(dot, len1, len2, sqrt) <= 1.0
  {
    var s1, s2 := sqrt(len1 as real), sqrt(len2 as real);
    SqrtPositive(sqrt, len1 as real);
    SqrtPositive(sqrt, len2 as real);
    assert s1 * s1 == len1 as real && s2 * s2 == len2 as real;
    assert Cosine(dot, len1, len2, sqrt) == (dot as real) / (s1 * s2);
    QuotientOfRoots(dot, len1, len2, s1, s2);
  }

  /** The cosine's bounds, stated on the roots s1 and s2 of len1 and len2. */
  lemma QuotientOfRoots(dot: int, len1: int, len2: int, s1: real, s2: real)
    requires 0 <= dot
    requires 0.0 < s1 && 0.0 < s2 && s1 * s1 == len1 as real && s2 * s2 == len2 as real
    ensures 0.0 <= (dot as real) / (s1 * s2)
    ensures dot == len1 == len2 ==> (dot as real) / (s1 * s2) == 1.0
    ensures dot * dot <= len1 * len2 ==> (dot as real) / (s1 * s2) <= 1.0
  {
    QuotientNonNegative(dot as real, s1, s2);
    if dot == len1 == len2 {
      var l := len1 as real;
      SquareInjective(s2, s1);
      assert s1 * s2 == l && dot as real == l;
      assert 0.0 < s1 * s1;
      SelfQuotient(l);
    }
    if dot * dot <= len1 * len2 {
      QuotientOfRootsAtMostOne(dot, len1, len2, s1, s2);
    }
  }

  /** dot / (s1 * s2) <= 1 when s1 and s2 are the roots of len1 and len2 and dot^2 <= len1 * len2. */
  lemma QuotientOfRootsAtMostOne(dot: int, len1: int, len2: int, s1: real, s2: real)
    requires 0 <= dot && dot * dot <= len1 * len2
    requires 0.0 < s1 && 0.0 < s2 && s1 * s1 == len1 as real && s2 * s2 == len2 as real
    ensures (dot as real) / (s1 * s2) <= 1.0
  {
    var d, s := dot as real, s1 * s2;
    RealOfProduct(dot, dot);
    RealOfProduct(len1, len2);
    assert s * s == (s1 * s1) * (s2 * s2);
    assert d * d <= s * s;
    QuotientAtMostOne(d, s);
  }

  /** A non-negative quotient whose numerator squares to at most its denominator's square is at most 1. */
  lemma QuotientAtMostOne(d: real, s: real)
    requires 0.0 <= d && 0.0 < s && d * d <= s * s
    ensures d / s <= 1.0
  {
    assert d <= s;
    var q := d / s;
    assert q * s == d;
  }

  /** For non-empty counts, the cosine lies in [0, 1], and is 1 against itself. */
  lemma CosineFacts(c1: multiset<string>, c2: multiset<string>, sqrt: real -> real)
    requires SqrtSpec(sqrt)
    requires c1 != multiset{} && c2 != multiset{}
    ensures 0 < LengthSquared(c1) && 0 < LengthSquared(c2)
    ensures 0.0 <= Cosine(Dot(c1, c2), LengthSquared(c1), LengthSquared(c2), sqrt)
    ensures c1 == c2 ==> Cosine(Dot(c1, c2), LengthSquared(c1), LengthSquared(c2), sqrt) == 1.0
    ensures Cosine(Dot(c1, c2), LengthSquared(c1), LengthSquared(c2), sqrt) <= 1.0
  {
    LengthSquaredZero(c1);
    LengthSquaredZero(c2);
    DotOverNonNegative(Support(c1), c1, c2);
    DotSquaredBound(c1, c2);
    CosineBounds(Dot(c1, c2), LengthSquared(c1), LengthSquared(c2), sqrt);
  }

  /** similarity: the two loops that accumulate the dot product and the squared lengths. */
  method ComputeSimilarity(count1: multiset<string>, count2: multiset<string>, sqrt: real -> real)
    returns (sim: real)
    requires SqrtSpec(sqrt)
    requires count1 != multiset{} ==> count2 != multiset{}
    ensures sim == Similarity(count1, count2, sqrt)
  {
    var dot, len1, len2 := 0, 0, 0;
    var rest := Support(count1);
    while rest != {}
      invariant dot + DotOver(rest, count1, count2) == Dot(count1, count2)
      invariant len1 + DotOver(rest, count1, count1) == LengthSquared(count1)
      decreases rest
    {
      var k :| k in rest;
      dot := dot + count1[k] * count2[k];
      len1 := len1 + count1[k] * count1[k];
      DotOverRemove(rest, count1, count2, k);
      DotOverRemove(rest, count1, count1, k);
      rest := rest - {k};
    }
    rest := Support(count2);
    while rest != {}
      invariant len2 + DotOver(rest, count2, count2) == LengthSquared(count2)
      decreases rest
    {
      var k :| k in rest;
      len2 := len2 + count2[k] * count2[k];
      DotOverRemove(rest, count2, count2, k);
      rest := rest - {k};
    }
    LengthSquaredZero(count1);
    LengthSquaredZero(count2);
    sim := Cosine(dot, len1, len2, sqrt);
  }

  /**
   * process_boredom of the repetitive handler: the raw valence scaled by
   * 1 - similarity(recent history count, proposed interaction count).
   */
  ghost function RepetitiveBoredom(name: Naming, sqrt: real -> real, memory: MemoryView, i: Interaction, raw: real): (v: real)
    requires SqrtSpec(sqrt)
    ensures memory.history == [] ==> v == 2.0 * raw
    ensures memory.history != [] && raw >= 0.0 ==> 0.0 <= v <= raw
    ensures memory.history != [] && raw <= 0.0 ==> raw <= v <= 0.0
  {
    var historyCount := Counts(name, Recent(memory.history));
    var interactionCount := Counts(name, Unwrap(i));
    var similarity := Similarity(historyCount, interactionCount, sqrt);
    var v := raw * (1.0 - similarity);
    assert memory.history == [] ==> v == 2.0 * raw by {
      if memory.history == [] {
        assert similarity == -1.0;
      }
    }
    assert memory.history != [] ==> (raw >= 0.0 ==> 0.0 <= v <= raw) && (raw <= 0.0 ==> raw <= v <= 0.0) by {
      if memory.history != [] {
        assert historyCount != multiset{};
        DiscountBounds(raw, similarity);
      }
    }
    v
  }

  /** Scaling by 1 - s for a similarity s in [0, 1] moves a valence toward 0 without crossing it. */
  lemma DiscountBounds(raw: real, s: real)
    requires 0.0 <= s <= 1.0
    ensures raw >= 0.0 ==> 0.0 <= raw * (1.0 - s) <= raw
    ensures raw <= 0.0 ==> raw <= raw * (1.0 - s) <= 0.0
  {
  }

  /** Entries older than the last 15 of the history have no influence. */
  lemma OnlyRecentHistoryMatters(name: Naming, sqrt: real -> real, memory: MemoryView, older: seq<Interaction>, i: Interaction, raw: real)
    requires SqrtSpec(sqrt)
    requires |memory.history| >= HistoryConsiderSize
    ensures RepetitiveBoredom(name, sqrt, memory.(history := older + memory.history), i, raw)
         == RepetitiveBoredom(name, sqrt, memory, i, raw)
  {
    var h := memory.history;
    var n := |older + h|;
    assert (older + h)[n - HistoryConsiderSize..] == h[|h| - HistoryConsiderSize..];
    SameRecentSameBoredom(name, sqrt, memory.(history := older + h), memory, i, raw);
  }

  /** The repetitive handler reads a non-empty history only through its recent window. */
  lemma SameRecentSameBoredom(name: Naming, sqrt: real -> real, m1: MemoryView, m2: MemoryView, i: Interaction, raw: real)
    requires SqrtSpec(sqrt)
    requires m1.history != [] && m2.history != [] && Recent(m1.history) == Recent(m2.history)
    ensures RepetitiveBoredom(name, sqrt, m1, i, raw) == RepetitiveBoredom(name, sqrt, m2, i, raw)
  {
  }

  /** A count in which one name occurs n times and nothing else. */
  lemma {:induction false} CountsOfOneName(name: Naming, s: seq<Interaction>, key: string)
    requires forall x :: x in s ==> CountKey(name, x) == key
    ensures Counts(name, s) == multiset{}[key := |s|]
  {
    if s != [] {
      var init := s[..|s| - 1];
      assert forall x :: x in init ==> x in s;
      CountsOfOneName(name, init, key);
    }
  }

  /**
   * Proposing the primitive that fills the whole recent history is maximally
   * boring: the similarity is 1 and the discounted valence is 0.
   */
  lemma RepeatedPrimitiveIsBoring(name: Naming, sqrt: real -> real, memory: MemoryView, p: Interaction, raw: real)
    requires SqrtSpec(sqrt)
    requires p.Primitive? && memory.history != []
    requires forall x :: x in Recent(memory.history) ==> CountKey(name, x) == name(p)
    ensures RepetitiveBoredom(name, sqrt, memory, p, raw) == 0.0
  {
    var key := name(p);
    var recent := Recent(memory.history);
    var n := |recent|;
    var c1 := Counts(name, recent);
    var c2 := Counts(name, Unwrap(p));
    CountsOfOneName(name, recent, key);
    CountsOfOneName(name, Unwrap(p), key);
    assert Support(c1) == {key};
    assert Support(c2) == {key};
    DotOverRemove({key}, c1, c2, key);
    DotOverRemove({key}, c1, c1, key);
    DotOverRemove({key}, c2, c2, key);
    assert Dot(c1, c2) == n;
    assert LengthSquared(c1) == n * n;
    assert LengthSquared(c2) == 1;
    LengthSquaredZero(c1);
    LengthSquaredZero(c2);
    assert Similarity(c1, c2, sqrt) == Cosine(n, n * n, 1, sqrt);
    CosineOfParallelCounts(n, sqrt);
  }

  /** n occurrences of one name against a single occurrence of it: cosine 1. */
  lemma CosineOfParallelCounts(n: int, sqrt: real -> real)
    requires SqrtSpec(sqrt) && 0 < n
    ensures Cosine(n, n * n, 1, sqrt) == 1.0
  {
    var rn := n as real;
    var sq := (n * n) as real;
    RealOfProduct(n, n);
    assert sq == rn * rn;
    SqrtOfSquare(sqrt, rn);
    assert sqrt(sq) == rn;
    SqrtOfSquare(sqrt, 1.0);
    assert sqrt(1 as real) == 1.0;
    SelfQuotient(rn);
  }

  lemma RealOfProduct(a: int, b: int)
    ensures (a * b) as real == (a as real) * (b as real)
  {
  }

  // ---------------------------------------------------------------------------
  // WeightRepetitiveBoredomHandler

  /**
   * process_boredom of the combined handler: the mean of the weight and the
   * repetitive handlers applied to the same raw valence, so it lies between them.
   */
  ghost function WeightRepetitiveBoredom(name: Naming, sqrt: real -> real, memory: MemoryView, i: Interaction, raw: real): (v: real)
    requires SqrtSpec(sqrt)
    requires raw > 0.0 ==> memory.totalWeight > 0.0 && Weighed(memory.weights, i)
    ensures 2.0 * v == WeightBoredom(memory, i, raw) + RepetitiveBoredom(name, sqrt, memory, i, raw)
    ensures WeightBoredom(memory, i, raw) <= RepetitiveBoredom(name, sqrt, memory, i, raw) ==>
      WeightBoredom(memory, i, raw) <= v <= RepetitiveBoredom(name, sqrt, memory, i, raw)
    ensures RepetitiveBoredom(name, sqrt, memory, i, raw) <= WeightBoredom(memory, i, raw) ==>
      RepetitiveBoredom(name, sqrt, memory, i, raw) <= v <= WeightBoredom(memory, i, raw)
  {
    (WeightBoredom(memory, i, raw) + RepetitiveBoredom(name, sqrt, memory, i, raw)) / 2.0
  }

  /** With an empty history a non-positive raw valence is scaled by 3/2: passthrough averaged with doubling. */
  lemma ColdStartCombined(name: Naming, sqrt: real -> real, memory: MemoryView, i: Interaction, raw: real)
    requires SqrtSpec(sqrt)
    requires memory.history == [] && raw <= 0.0
    ensures WeightRepetitiveBoredom(name, sqrt, memory, i, raw) == 1.5 * raw
  {
  }

  /**
   * The combined handler as the source computes it when the raw valence is
   * a Python 2 int: with an empty history and a non-positive valence both
   * handlers return ints (the valence itself, and the valence times the int
   * 1 - (-1)), so the final division by the int 2 floors. Dafny's `/` on
   * int with a positive divisor floors as well.
   */
  ghost function WeightRepetitiveBoredomAsWritten(name: Naming, sqrt: real -> real, memory: MemoryView, i: Interaction, raw: int): (v: real)
    requires SqrtSpec(sqrt)
    requires raw > 0 ==> memory.totalWeight > 0.0 && Weighed(memory.weights, i)
    ensures memory.history == [] && raw <= 0 ==> 1.5 * (raw as real) - 0.5 <= v <= 1.5 * (raw as real)
  {
    if memory.history == [] && raw <= 0 then
      var q := (raw + raw * 2) / 2;
      assert raw + raw * 2 == 2 * q + (raw + raw * 2) % 2;
      q as real
    else WeightRepetitiveBoredom(name, sqrt, memory, i, raw as real)
  }

  /**
   * On a cold start the source's result agrees with the mean exactly for
   * even valences; an odd one such as -1 gives -2 instead of -1.5.
   */
  lemma CombinedFloorsOddValences(name: Naming, sqrt: real -> real, memory: MemoryView, i: Interaction, raw: int)
    requires SqrtSpec(sqrt)
    requires memory.history == [] && raw <= 0
    ensures (WeightRepetitiveBoredomAsWritten(name, sqrt, memory, i, raw)
             == WeightRepetitiveBoredom(name, sqrt, memory, i, raw as real)) <==> raw % 2 == 0
    ensures raw == -1 ==> WeightRepetitiveBoredomAsWritten(name, sqrt, memory, i, raw) == -2.0
  {
    var written := WeightRepetitiveBoredomAsWritten(name, sqrt, memory, i, raw);
    var mean := WeightRepetitiveBoredom(name, sqrt, memory, i, raw as real);
    assert written == ((raw + raw * 2) / 2) as real;
    ColdStartCombined(name, sqrt, memory, i, raw as real);
    assert mean == 1.5 * (raw as real);
    HalfOfTriple(raw);
  }

  /** Flooring 3n/2 loses nothing exactly when n is even. */
  lemma HalfOfTriple(n: int)
    ensures ((n + n * 2) / 2) as real == 1.5 * (n as real) <==> n % 2 == 0
  {
    var q, r := (n + n * 2) / 2, (n + n * 2) % 2;
    assert n + n * 2 == 2 * q + r && 0 <= r < 2;
    assert (r == 0) <==> n % 2 == 0;
    assert (q as real == 1.5 * (n as real)) <==> 2 * q == 3 * n;
  }
}
