/**
 * Building a world from its text representation: a list of lines, one
 * symbol per cell. Each symbol the mapper knows becomes a new entity at
 * (column, line); the world is as wide as the longest line and as high as
 * the number of lines. The experiment's optional controller (a key handler)
 * is represented only by whether it is present.
 */
module Experiments {
  import opened Worlds

  datatype Option<T> = None | Some(value: T)

  /** mapper: the default symbol table. */
  function Mapper(symbol: char): (kind: Option<Kind>)
    ensures kind.Some? <==> symbol in "wbahp"
  {
    match symbol
    case 'w' => Some(Wall)
    case 'b' => Some(Block)
    case 'a' => Some(ConstructiveAgent)
    case 'h' => Some(HomeostaticAgent)
    case 'p' => Some(PerceivingAgent)
    case _ => None
  }

  /** The symbol that stands for a kind in the default table; food has none. */
  function SymbolOf(kind: Kind): Option<char> {
    match kind
    case Wall => Some('w')
    case Block => Some('b')
    case ConstructiveAgent => Some('a')
    case HomeostaticAgent => Some('h')
    case PerceivingAgent => Some('p')
    case Food => None
  }

  /** The default table and SymbolOf are inverse to each other on the symbols the table knows. */
  lemma MapperInvertsSymbolOf(symbol: char, kind: Kind)
    ensures Mapper(symbol) == Some(kind) <==> SymbolOf(kind) == Some(symbol)
  {
  }

  /** A kind placed at a cell. */
  datatype Placement = Placement(kind: Kind, pos: Pos)

  /** Reference definition: the placements of one line, left to right. */
  function RowPlacements(line: string, y: int, mapper: char -> Option<Kind>): seq<Placement>
  {
    if line == [] then []
    else
      var x := |line| - 1;
      RowPlacements(line[..x], y, mapper)
        + (if mapper(line[x]).Some? then [Placement(mapper(line[x]).value, Pos(x, y))] else [])
  }

  /** Reference definition: the placements of the whole representation, line after line. */
  function Placements(repr: seq<string>, mapper: char -> Option<Kind>): seq<Placement>
  {
    if repr == [] then []
    else
      var y := |repr| - 1;
      Placements(repr[..y], mapper) + RowPlacements(repr[y], y, mapper)
  }

  /** The length of the longest line, 0 for no lines. */
  function MaxLen(repr: seq<string>): (width: nat)
    ensures forall line :: line in repr ==> |line| <= width
    ensures repr != [] ==> exists line :: line in repr && |line| == width
  {
    if repr == [] then 0
    else
      var init := repr[..|repr| - 1];
      var last := repr[|repr| - 1];
      assert forall line :: line in repr <==> line in init || line == last;
      if |last| > MaxLen(init) then |last| else MaxLen(init)
  }

  /** Cell p comes before cell q in row-major order. */
  predicate RowMajorBefore(p: Pos, q: Pos) {
    p.y < q.y || (p.y == q.y && p.x < q.x)
  }

  /** A cell gets a placement exactly when it holds a symbol the mapper knows, and then of that kind. */
  lemma {:induction false} RowPlacementsExact(line: string, y: int, mapper: char -> Option<Kind>, pl: Placement)
    ensures pl in RowPlacements(line, y, mapper) <==>
      pl.pos.y == y && 0 <= pl.pos.x < |line| && mapper(line[pl.pos.x]) == Some(pl.kind)
  {
    if line != [] {
      var x := |line| - 1;
      RowPlacementsExact(line[..x], y, mapper, pl);
    }
  }

  lemma {:induction false} PlacementsExact(repr: seq<string>, mapper: char -> Option<Kind>, pl: Placement)
    ensures pl in Placements(repr, mapper) <==>
      0 <= pl.pos.y < |repr| && 0 <= pl.pos.x < |repr[pl.pos.y]|
      && mapper(repr[pl.pos.y][pl.pos.x]) == Some(pl.kind)
  {
    if repr != [] {
      var y := |repr| - 1;
      PlacementsExact(repr[..y], mapper, pl);
      RowPlacementsExact(repr[y], y, mapper, pl);
    }
  }

  /** The placements of a line lie on that line, strictly left to right. */
  lemma {:induction false} RowPlacementsOrdered(line: string, y: int, mapper: char -> Option<Kind>)
    ensures forall pl :: pl in RowPlacements(line, y, mapper) ==> pl.pos.y == y && 0 <= pl.pos.x < |line|
    ensures forall i, j :: 0 <= i < j < |RowPlacements(line, y, mapper)| ==>
      RowMajorBefore(RowPlacements(line, y, mapper)[i].pos, RowPlacements(line, y, mapper)[j].pos)
  {
    if line != [] {
      var x := |line| - 1;
      RowPlacementsOrdered(line[..x], y, mapper);
    }
  }

  /** Placements come in row-major order; in particular no cell gets two of them. */
  lemma {:induction false} PlacementsOrdered(repr: seq<string>, mapper: char -> Option<Kind>)
    ensures forall pl :: pl in Placements(repr, mapper) ==> 0 <= pl.pos.y < |repr|
    ensures forall i, j :: 0 <= i < j < |Placements(repr, mapper)| ==>
      RowMajorBefore(Placements(repr, mapper)[i].pos, Placements(repr, mapper)[j].pos)
  {
    if repr != [] {
      var y := |repr| - 1;
      PlacementsOrdered(repr[..y], mapper);
      RowPlacementsOrdered(repr[y], y, mapper);
      var a, b := Placements(repr[..y], mapper), RowPlacements(repr[y], y, mapper);
      assert forall i :: 0 <= i < |a| ==> a[i] in a;
      assert forall j :: 0 <= j < |b| ==> b[j] in b;
    }
  }

  /** The entities created for `placements`, in order, with ids from `base` on. */
  function Spawned(placements: seq<Placement>, base: nat): (es: seq<Entity>)
    ensures |es| == |placements|
    ensures forall i :: 0 <= i < |es| ==> es[i] == Entity(base + i, placements[i].kind, placements[i].pos, 1, 0)
  {
    seq(|placements|, i requires 0 <= i < |placements| =>
      Entity(base + i, placements[i].kind, placements[i].pos, 1, 0))
  }

  lemma SpawnedConcat(a: seq<Placement>, b: seq<Placement>, base: nat)
    ensures Spawned(a + b, base) == Spawned(a, base) + Spawned(b, base + |a|)
  {
    assert forall i :: 0 <= i < |a + b| ==> Spawned(a + b, base)[i] == (Spawned(a, base) + Spawned(b, base + |a|))[i];
  }

  function Max(a: nat, b: nat): nat {
    if a > b then a else b
  }

  /** parse_world: scan the lines in order, and each line's symbols in order. */
  method ParseWorld(repr: seq<string>, mapper: char -> Option<Kind>) returns (w: World)
    ensures fresh(w) && w.Valid()
    ensures w.entities == Spawned(Placements(repr, mapper), 0)
    ensures w.width == MaxLen(repr) && w.height == |repr|
  {
    w := new World();
    var maxY, maxX := 0, 0;
    var y := 0;
    while y < |repr|
      invariant y <= |repr| && w.Valid()
      invariant w.nextId == |w.entities|
      invariant w.entities == Spawned(Placements(repr[..y], mapper), 0)
      invariant maxX == MaxLen(repr[..y]) && maxY == y
    {
      NextLine(repr, y, mapper);
      maxX := ScanLine(w, repr[y], y, mapper, maxX);
      y := y + 1;
      maxY := Max(maxY, y);
    }
    assert repr[..y] == repr;
    w.width := maxX;
    w.height := maxY;
  }

  /** What scanning line y adds to the scan of the lines before it. */
  lemma NextLine(repr: seq<string>, y: nat, mapper: char -> Option<Kind>)
    requires y < |repr|
    ensures Spawned(Placements(repr[..y + 1], mapper), 0)
         == Spawned(Placements(repr[..y], mapper), 0)
          + Spawned(RowPlacements(repr[y], y, mapper), |Placements(repr[..y], mapper)|)
    ensures MaxLen(repr[..y + 1]) == Max(MaxLen(repr[..y]), |repr[y]|)
  {
    var prefix, next := repr[..y], repr[..y + 1];
    assert next[..y] == prefix && next[y] == repr[y];
    SpawnedConcat(Placements(prefix, mapper), RowPlacements(repr[y], y, mapper), 0);
  }

  /** The inner loop of parse_world over the symbols of line `y`. */
  method ScanLine(w: World, line: string, y: int, mapper: char -> Option<Kind>, maxX0: nat) returns (maxX: nat)
    requires w.Valid() && w.nextId == |w.entities|
    modifies w
    ensures w.Valid() && w.nextId == |w.entities|
    ensures w.entities == old(w.entities) + Spawned(RowPlacements(line, y, mapper), old(w.nextId))
    ensures maxX == Max(maxX0, |line|)
    ensures w.width == old(w.width) && w.height == old(w.height)
  {
    maxX := maxX0;
    var x := 0;
    while x < |line|
      invariant x <= |line| && w.Valid() && w.nextId == |w.entities|
      invariant w.entities == old(w.entities) + Spawned(RowPlacements(line[..x], y, mapper), old(w.nextId))
      invariant maxX == Max(maxX0, x)
      invariant w.width == old(w.width) && w.height == old(w.height)
    {
      var obj := mapper(line[x]);
      assert line[..x + 1][..x] == line[..x];
      ghost var before := RowPlacements(line[..x], y, mapper);
      if obj.Some? {
        var e := w.AddEntity(obj.value, Pos(x, y), 1);
        SpawnedConcat(before, [Placement(obj.value, Pos(x, y))], old(w.nextId));
      } else {
        assert RowPlacements(line[..x + 1], y, mapper) == before + [];
      }
      x := x + 1;
      maxX := Max(maxX, x);
    }
    assert line[..x] == line;
  }

  /** An empty representation gives an empty 0 x 0 world. */
  lemma EmptyRepresentation(mapper: char -> Option<Kind>)
    ensures Placements([], mapper) == [] && MaxLen([]) == 0
  {
  }

  /** What a controller does with key presses is not part of this model, only whether there is one. */
  datatype Controller = KeyController

  /** has_controller */
  function HasController(controller: Option<Controller>): (r: bool)
    ensures r <==> controller != None
  {
    controller != None
  }
}
