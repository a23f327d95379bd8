/** The board (the source's `Map`): every placed cell by position, Blank
    cells included, beside the cells that take part in the game. */
module Boards {
  import opened Types

  /** `all` holds every placed cell (Blank ones too); `nodes` the non-Blank ones. */
  datatype Board = Board(all: map<Pos, Cell>, nodes: map<Pos, Cell>)

  /** What construction guarantees. `nodes` may keep a non-Blank cell at a
      position where a later Blank cell with the same position won in `all`. */
  ghost predicate WF(b: Board)
  {
    && (forall p :: p in b.all ==> b.all[p].position == p)
    && (forall p :: p in b.nodes ==> b.nodes[p].position == p && b.nodes[p].kind != Blank && p in b.all)
    && (forall p :: p in b.all && b.all[p].kind != Blank ==> p in b.nodes && b.nodes[p] == b.all[p])
  }

  /** A board whose `nodes` is exactly the non-Blank part of `all`: what every
      clone is. */
  ghost predicate Canonical(b: Board)
  {
    WF(b) && forall p :: p in b.nodes ==> b.all[p] == b.nodes[p]
  }

  /** The non-Blank part of a cell map. */
  function Active(all: map<Pos, Cell>): map<Pos, Cell>
  {
    map p | p in all && all[p].kind != Blank :: all[p]
  }

  /** `Map.__init__`: both dictionaries are built by one pass over the cells,
      so a later cell silently replaces an earlier one at the same position. */
  function FromCells(data: seq<Cell>): (b: Board)
    ensures b.all.Keys == set i | 0 <= i < |data| :: data[i].position
  {
    if data == [] then Board(map[], map[])
    else
      var b0 := FromCells(data[..|data| - 1]);
      var c := data[|data| - 1];
      assert forall i :: 0 <= i < |data| - 1 ==> data[..|data| - 1][i] == data[i];
      Board(b0.all[c.position := c],
            if c.kind != Blank then b0.nodes[c.position := c] else b0.nodes)
  }

  lemma {:induction false} FromCellsWF(data: seq<Cell>)
    ensures WF(FromCells(data))
  {
    if data != [] {
      FromCellsWF(data[..|data| - 1]);
    }
  }

  /** The last cell given for a position is the one `all` keeps. */
  lemma {:induction false} FromCellsLastWins(data: seq<Cell>, i: nat)
    requires i < |data|
    requires forall j :: i < j < |data| ==> data[j].position != data[i].position
    ensures FromCells(data).all[data[i].position] == data[i]
  {
    if i < |data| - 1 {
      FromCellsLastWins(data[..|data| - 1], i);
    }
  }

  /** The last non-Blank cell given for a position is the one `nodes` keeps,
      even when a Blank cell for that position comes after it. */
  lemma {:induction false} FromCellsLastActiveWins(data: seq<Cell>, i: nat)
    requires i < |data| && data[i].kind != Blank
    requires forall j :: i < j < |data| && data[j].kind != Blank ==> data[j].position != data[i].position
    ensures data[i].position in FromCells(data).nodes
    ensures FromCells(data).nodes[data[i].position] == data[i]
  {
    if i < |data| - 1 {
      FromCellsLastActiveWins(data[..|data| - 1], i);
    }
  }

  /** Duplicates are accepted rather than rejected: a Blank placed after a
      Basic cell at the same position hides it in `all` but not in `nodes`. */
  lemma DuplicatePositionKept()
    ensures var b := FromCells([Cell(Basic, Red, (0, 0)), Cell(Blank, BlankColor, (0, 0))]);
            b.all[(0, 0)].kind == Blank && (0, 0) in b.nodes && b.nodes[(0, 0)].kind == Basic
  {
    var data := [Cell(Basic, Red, (0, 0)), Cell(Blank, BlankColor, (0, 0))];
    assert data[..1] == [Cell(Basic, Red, (0, 0))];
    assert data[..1][..0] == [];
  }

  /** `Map.clone`: a board rebuilt from copies of all its cells. */
  function Clone(b: Board): (r: Board)
    requires WF(b)
    ensures Canonical(r) && r.all == b.all
    ensures Key(r) == Key(b)
    ensures Canonical(b) ==> r == b
  {
    Board(b.all, Active(b.all))
  }

  /** What `Map.__hash__` hashes: the cells sorted by position, each seen
      through node equality (class, colour, position). Keyed by position,
      the order is implicit. */
  function Key(b: Board): map<Pos, (Tag, Color)>
  {
    map p | p in b.all :: (TagOf(b.all[p].kind), b.all[p].color)
  }

  /** `Map.__eq__`, hash collisions aside. */
  predicate SameMap(a: Board, b: Board)
  {
    Key(a) == Key(b)
  }

  /** Two boards are equal as maps exactly when they hold cells at the same
      positions and the cells at each position are equal as nodes. */
  lemma SameMapIffSameNodes(a: Board, b: Board)
    requires WF(a) && WF(b)
    ensures SameMap(a, b) <==>
              a.all.Keys == b.all.Keys && forall p :: p in a.all ==> SameNode(a.all[p], b.all[p])
  {
    if SameMap(a, b) {
      assert a.all.Keys == Key(a).Keys;
      forall p | p in a.all ensures SameNode(a.all[p], b.all[p]) {
        assert Key(a)[p] == Key(b)[p];
      }
    }
  }

  /** The colours present among the non-Blank cells. */
  function ColorSet(b: Board): set<Color>
  {
    set p | p in b.nodes :: b.nodes[p].color
  }

  /** `Map.is_solved`: exactly one colour among the non-Blank cells. */
  predicate IsSolved(b: Board)
  {
    |ColorSet(b)| == 1
  }

  /** The number of non-Blank cells in `s` with colour `c`. */
  function CountIn(b: Board, s: set<Pos>, c: Color): nat
  {
    |set p | p in s && p in b.nodes && b.nodes[p].color == c|
  }

  /** The product of the counts of the colours of `cs` that are present. */
  function ProductOfCounts(b: Board, cs: seq<Color>): nat
  {
    if cs == [] then 1
    else (if cs[0] in ColorSet(b) then CountIn(b, b.nodes.Keys, cs[0]) else 1)
         * ProductOfCounts(b, cs[1..])
  }

  /** The search heuristic: (number of colours, product of per-colour counts). */
  function Entropy(b: Board): (nat, nat)
  {
    (|ColorSet(b)|, ProductOfCounts(b, Palette))
  }

  lemma CountInStep(b: Board, s: set<Pos>, p: Pos, c: Color)
    requires p !in s && p in b.nodes
    ensures CountIn(b, s + {p}, c) == CountIn(b, s, c) + (if b.nodes[p].color == c then 1 else 0)
  {
    var old_ := set q | q in s && q in b.nodes && b.nodes[q].color == c;
    var new_ := set q | q in s + {p} && q in b.nodes && b.nodes[q].color == c;
    if b.nodes[p].color == c {
      assert new_ == old_ + {p};
    } else {
      assert new_ == old_;
    }
  }

  /** A colour is present exactly when some non-Blank cell has it. */
  lemma PresentIffCounted(b: Board, c: Color)
    ensures c in ColorSet(b) <==> CountIn(b, b.nodes.Keys, c) > 0
  {
    var s := set p | p in b.nodes.Keys && p in b.nodes && b.nodes[p].color == c;
    if c in ColorSet(b) {
      var p :| p in b.nodes && b.nodes[p].color == c;
      assert p in s;
    }
  }

  /** `Map.entrophy`: counts colours into a dictionary in one pass over the
      non-Blank cells, then multiplies the counts. */
  method Entrophy(b: Board) returns (distinct: nat, product: nat)
    ensures (distinct, product) == Entropy(b)
  {
    var count := CountColors(b);
    CountedKeys(b, count);
    distinct := |count|;
    product := 1;
    var i := |Palette|;
    while i > 0
      invariant 0 <= i <= |Palette|
      invariant product == ProductOfCounts(b, Palette[i..])
    {
      i := i - 1;
      var factor := if Palette[i] in count then count[Palette[i]] else 1;
      ProductStep(b, count, i);
      product := factor * product;
    }
  }

  /** The colours counted are exactly the colours present. */
  lemma CountedKeys(b: Board, count: map<Color, nat>)
    requires forall c :: c in count <==> CountIn(b, b.nodes.Keys, c) > 0
    ensures count.Keys == ColorSet(b)
  {
    forall c ensures c in count <==> c in ColorSet(b) {
      PresentIffCounted(b, c);
    }
  }

  /** The factor of `Palette[i]`, read from the counts. */
  lemma ProductStep(b: Board, count: map<Color, nat>, i: nat)
    requires i < |Palette| && count.Keys == ColorSet(b)
    requires forall c :: c in count ==> count[c] == CountIn(b, b.nodes.Keys, c)
    ensures var factor := if Palette[i] in count then count[Palette[i]] else 1;
            ProductOfCounts(b, Palette[i..]) == factor * ProductOfCounts(b, Palette[i + 1..])
  {
    assert Palette[i..][1..] == Palette[i + 1..];
  }

  lemma CountColorsStep(b: Board, done: set<Pos>, p: Pos, count: map<Color, nat>)
    requires p !in done && p in b.nodes
    requires forall c :: c in count <==> CountIn(b, done, c) > 0
    requires forall c :: c in count ==> count[c] == CountIn(b, done, c)
    ensures var c := b.nodes[p].color;
            var count' := count[c := (if c in count then count[c] else 0) + 1];
            && (forall c :: c in count' <==> CountIn(b, done + {p}, c) > 0)
            && (forall c :: c in count' ==> count'[c] == CountIn(b, done + {p}, c))
  {
    forall c' ensures CountIn(b, done + {p}, c') == CountIn(b, done, c') + (if b.nodes[p].color == c' then 1 else 0) {
      CountInStep(b, done, p, c');
    }
  }

  /** The counting loop of `Map.entrophy`: one entry per colour present,
      holding the number of non-Blank cells of that colour. */
  method CountColors(b: Board) returns (count: map<Color, nat>)
    ensures forall c :: c in count <==> CountIn(b, b.nodes.Keys, c) > 0
    ensures forall c :: c in count ==> count[c] == CountIn(b, b.nodes.Keys, c)
  {
    count := map[];
    var todo := b.nodes.Keys;
    ghost var done: set<Pos> := {};
    while todo != {}
      invariant todo + done == b.nodes.Keys && todo !! done
      invariant forall c :: c in count <==> CountIn(b, done, c) > 0
      invariant forall c :: c in count ==> count[c] == CountIn(b, done, c)
      decreases |todo|
    {
      var p :| p in todo;
      var c := b.nodes[p].color;
      var n := if c in count then count[c] else 0;
      CountColorsStep(b, done, p, count);
      count := count[c := n + 1];
      todo := todo - {p};
      done := done + {p};
    }
  }

  /** A board is solved exactly when its entropy has one colour; then the
      product is the number of non-Blank cells. */
  lemma {:induction false} SolvedIffOneColour(b: Board)
    ensures IsSolved(b) <==> Entropy(b).0 == 1
    ensures IsSolved(b) ==> Entropy(b).1 == |b.nodes|
  {
    if IsSolved(b) {
      var c :| c in ColorSet(b);
      assert |ColorSet(b) - {c}| == 0;
      assert ColorSet(b) == {c};
      ProductWithOneColour(b, Palette, c);
      assert (set p | p in b.nodes.Keys && p in b.nodes && b.nodes[p].color == c) == b.nodes.Keys by {
        forall p | p in b.nodes ensures b.nodes[p].color == c {
          assert b.nodes[p].color in ColorSet(b);
        }
      }
      assert |b.nodes.Keys| == |b.nodes|;
    }
  }

  lemma {:induction false} ProductWithOneColour(b: Board, cs: seq<Color>, c: Color)
    requires ColorSet(b) == {c}
    requires forall i, j :: 0 <= i < j < |cs| ==> cs[i] != cs[j]
    ensures ProductOfCounts(b, cs) == if c in cs then CountIn(b, b.nodes.Keys, c) else 1
  {
    if cs != [] {
      ProductWithOneColour(b, cs[1..], c);
      assert c in cs <==> cs[0] == c || c in cs[1..];
    }
  }

  /** Every colour present contributes a positive factor. */
  lemma {:induction false} ProductPositive(b: Board, cs: seq<Color>)
    ensures ProductOfCounts(b, cs) >= 1
  {
    if cs != [] {
      ProductPositive(b, cs[1..]);
      PresentIffCounted(b, cs[0]);
    }
  }

  // ---- the bounding box (`Map.x`, `Map.y`) ----

  lemma IntSetHasElement(s: set<int>)
    requires s != {}
    ensures exists m :: m in s
  {
    if forall x :: x !in s {
      assert false;
    }
  }

  lemma {:induction false} MinExists(s: set<int>)
    requires s != {}
    ensures exists m :: m in s && forall y :: y in s ==> m <= y
  {
    IntSetHasElement(s);
    var x :| x in s;
    var rest := s - {x};
    if rest == {} {
      forall y | y in s ensures x <= y {
        assert y !in rest;
      }
      assert x in s;
    } else {
      MinExists(rest);
      var m :| m in rest && forall y :: y in rest ==> m <= y;
      var best := if x < m then x else m;
      forall y | y in s ensures best <= y {
        if y != x {
          assert y in rest;
        }
      }
      assert best in s;
    }
  }

  lemma {:induction false} MaxExists(s: set<int>)
    requires s != {}
    ensures exists m :: m in s && forall y :: y in s ==> y <= m
  {
    IntSetHasElement(s);
    var x :| x in s;
    var rest := s - {x};
    if rest == {} {
      forall y | y in s ensures y <= x {
        assert y !in rest;
      }
      assert x in s;
    } else {
      MaxExists(rest);
      var m :| m in rest && forall y :: y in rest ==> y <= m;
      var best := if m < x then x else m;
      forall y | y in s ensures y <= best {
        if y != x {
          assert y in rest;
        }
      }
      assert best in s;
    }
  }

  function MinOf(s: set<int>): (m: int)
    requires s != {}
    ensures m in s && forall y :: y in s ==> m <= y
  {
    MinExists(s);
    var m :| m in s && forall y :: y in s ==> m <= y;
    m
  }

  function MaxOf(s: set<int>): (m: int)
    requires s != {}
    ensures m in s && forall y :: y in s ==> y <= m
  {
    MaxExists(s);
    var m :| m in s && forall y :: y in s ==> y <= m;
    m
  }

  datatype Bounds = Bounds(minX: int, maxX: int, minY: int, maxY: int)

  predicate InBox(box: Bounds, p: Pos)
  {
    box.minX <= p.0 <= box.maxX && box.minY <= p.1 <= box.maxY
  }

  function Xs(b: Board): set<int>
  {
    set p | p in b.nodes :: p.0
  }

  function Ys(b: Board): set<int>
  {
    set p | p in b.nodes :: p.1
  }

  /** `min(map_.x)` … `max(map_.y)`: the smallest box around the non-Blank
      cells. On a board without non-Blank cells `min` would fail. */
  function Box(b: Board): (box: Bounds)
    requires b.nodes != map[]
    ensures forall p :: p in b.nodes ==> InBox(box, p)
    ensures exists p :: p in b.nodes && p.0 == box.minX
    ensures exists p :: p in b.nodes && p.0 == box.maxX
    ensures exists p :: p in b.nodes && p.1 == box.minY
    ensures exists p :: p in b.nodes && p.1 == box.maxY
  {
    assert Xs(b) != {} && Ys(b) != {} by {
      var p :| p in b.nodes;
      assert p.0 in Xs(b) && p.1 in Ys(b);
    }
    var box := Bounds(MinOf(Xs(b)), MaxOf(Xs(b)), MinOf(Ys(b)), MaxOf(Ys(b)));
    assert forall q :: q in b.nodes ==> q.0 in Xs(b) && q.1 in Ys(b);
    box
  }
}
