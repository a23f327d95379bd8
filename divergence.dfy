/** A board on which `solve` never returns: a move discovery finds whose
    cascade passes the colour back and forth for ever. */
module Divergence {
  import opened Types
  import opened Boards
  import opened Geometry
  import opened Discovery
  import opened Effects

  /** The position `k` cells to the right of `s`. */
  function At(s: Pos, k: int): Pos
  {
    (s.0 + k, s.1)
  }

  function RowCells(s: Pos): set<Pos>
  {
    {s, At(s, 1), At(s, 2), At(s, 3)}
  }

  /** The move from `s` through the two Turrets to the last cell of the row. */
  function RowMove(s: Pos): Path
  {
    [s, At(s, 1), At(s, 2), At(s, 3)]
  }

  /** Four cells side by side from `s` to the right, and no other non-Blank
      cell: a Basic cell, a Turret facing right, a Turret facing left and a
      Basic cell. */
  ghost predicate TurretRow(r: Board, s: Pos)
  {
    && Canonical(r) && r.nodes.Keys == RowCells(s)
    && r.nodes[s].kind == Basic && r.nodes[At(s, 1)].kind == Turret([Right])
    && r.nodes[At(s, 2)].kind == Turret([Left]) && r.nodes[At(s, 3)].kind == Basic
  }

  /** Each Turret targets the two cells ahead of it; the Basic cells target
      nothing. */
  lemma RowTargets(r: Board, s: Pos, c: Color)
    requires TurretRow(r, s)
    ensures KindTargets(r, At(s, 1), c) == {At(s, 2), At(s, 3)}
    ensures KindTargets(r, At(s, 2), c) == {s, At(s, 1)}
    ensures KindTargets(r, s, c) == {} && KindTargets(r, At(s, 3), c) == {}
  {
    RowTurretTargets(r, s, At(s, 1), Right, {At(s, 2), At(s, 3)}, c);
    RowTurretTargets(r, s, At(s, 2), Left, {s, At(s, 1)}, c);
  }

  /** A Turret of the row targets exactly the cells of the row ahead of it. */
  lemma RowTurretTargets(r: Board, s: Pos, p: Pos, d: Orientation, ahead: set<Pos>, c: Color)
    requires TurretRow(r, s) && p in r.nodes && r.nodes[p].kind == Turret([d])
    requires ahead <= RowCells(s) && forall q :: q in RowCells(s) ==> (q in ahead <==> Ahead(p, q, d))
    ensures KindTargets(r, p, c) == ahead
  {
    TurretSees(r, p, d, c);
  }

  /** Under a rule by which `t1` targets `t2` and `e` and `t2` targets `s`
      and `t1`, the batch `{t1, t2}` targets all four cells. */
  lemma FirstBatch(tg: Rule, r: Board, s: Pos, t1: Pos, t2: Pos, e: Pos, c: Color)
    requires tg(r, t1, c) == {t2, e} && tg(r, t2, c) == {s, t1}
    ensures BatchTargets(tg, r, {t1, t2}, c) == {s, t1, t2, e}
  {
    BatchTargetsAddOne(tg, r, {}, t1, c);
    BatchTargetsAddOne(tg, r, {t1}, t2, c);
    assert {t1} + {t2} == {t1, t2};
  }

  /** If moreover `s` and `e` target nothing, all four cells together
      target all four. */
  lemma WholeBatch(tg: Rule, r: Board, s: Pos, t1: Pos, t2: Pos, e: Pos, c: Color)
    requires tg(r, t1, c) == {t2, e} && tg(r, t2, c) == {s, t1} && tg(r, s, c) == {} && tg(r, e, c) == {}
    ensures BatchTargets(tg, r, {s, t1, t2, e}, c) == {s, t1, t2, e}
  {
    FirstBatch(tg, r, s, t1, t2, e, c);
    BatchTargetsAddOne(tg, r, {t1, t2}, s, c);
    BatchTargetsAddOne(tg, r, {t1, t2, s}, e, c);
    assert {t1, t2} + {s} == {t1, t2, s};
    assert {t1, t2, s} + {e} == {s, t1, t2, e};
  }

  /** On a board where every cell of `whole` outside `inner` has colour
      `c`, recolouring `inner` leaves all of `whole` with colour `c`, so
      recolouring `whole` then changes nothing. */
  lemma SettledColour(r: Board, inner: set<Pos>, whole: set<Pos>, c: Color)
    requires Canonical(r) && inner <= whole <= r.nodes.Keys
    requires forall q :: q in whole - inner ==> r.nodes[q].color == c
    ensures var r1 := Recolor(r, inner, c); whole <= r1.nodes.Keys && Recolor(r1, whole, c) == r1
  {
    var r1 := Recolor(r, inner, c);
    RecolorCanonical(r, inner, c);
    forall q | q in whole ensures r1.nodes[q].color == c {
      if q !in inner {
        assert q in whole - inner;
      }
    }
    RecolorSameColour(r1, whole, c);
  }

  /** Recolouring keeps the row: positions and kinds stay. */
  lemma RecolorRow(r: Board, s: Pos, batch: set<Pos>, c: Color)
    requires TurretRow(r, s)
    ensures TurretRow(Recolor(r, batch, c), s)
  {
    RecolorCanonical(r, batch, c);
    RecolorKeepsCells(r, batch, c);
  }

  /** The move through the Turrets cascades from the two Turrets, in the
      colour of its first cell, on the board itself (a clone of a canonical
      board is the board). */
  lemma RowApply(r: Board, s: Pos, rounds: nat)
    requires TurretRow(r, s)
    ensures Apply(r, RowMove(s), rounds) == Cascade(KindTargets, r, {At(s, 1), At(s, 2)}, r.nodes[s].color, rounds)
  {
    assert Interior(RowMove(s)) == {At(s, 1), At(s, 2)} by {
      assert RowMove(s)[1] == At(s, 1) && RowMove(s)[2] == At(s, 2);
    }
  }

  /** The cells of the row other than the Turrets are its two ends. */
  lemma RowEnds(r: Board, s: Pos, c: Color)
    requires TurretRow(r, s) && r.nodes[At(s, 3)].color == c && r.nodes[s].color == c
    ensures forall q :: q in RowCells(s) - {At(s, 1), At(s, 2)} ==> r.nodes[q].color == c
  {
    forall q | q in RowCells(s) - {At(s, 1), At(s, 2)} ensures r.nodes[q].color == c {
      assert q == s || q == At(s, 3);
    }
  }

  /** A cascade whose first batch `inner` passes the colour on to `whole`,
      after which `whole` targets itself on a board its recolouring no longer
      changes, never settles. */
  lemma GrowsThenCycles(tg: Rule, r: Board, inner: set<Pos>, r1: Board, whole: set<Pos>, c: Color, rounds: nat)
    requires inner <= r.nodes.Keys && whole != {} && whole <= r1.nodes.Keys
    requires BatchTargets(tg, r, inner, c) == whole && r1 == Recolor(r, inner, c)
    requires BatchTargets(tg, r1, whole, c) == whole && Recolor(r1, whole, c) == r1
    ensures Cascade(tg, r, inner, c, rounds) == OutOfRounds
  {
    if rounds > 0 {
      CascadeNext(tg, r, inner, c, rounds, whole, r1);
      CascadeCycles(tg, r1, whole, c, rounds - 1);
    }
  }

  /** Four cells under a rule by which `t1` targets `t2` and `e` and `t2`
      targets `s` and `t1`, before and after `t1` and `t2` take colour `c`:
      when that recolouring leaves all four in colour `c`, the cascade from
      `{t1, t2}` never settles. */
  lemma FourCellLoop(tg: Rule, r: Board, r1: Board, s: Pos, t1: Pos, t2: Pos, e: Pos, c: Color, rounds: nat)
    requires {t1, t2} <= r.nodes.Keys && r1 == Recolor(r, {t1, t2}, c)
    requires tg(r, t1, c) == {t2, e} && tg(r, t2, c) == {s, t1}
    requires tg(r1, t1, c) == {t2, e} && tg(r1, t2, c) == {s, t1} && tg(r1, s, c) == {} && tg(r1, e, c) == {}
    requires {s, t1, t2, e} <= r1.nodes.Keys && Recolor(r1, {s, t1, t2, e}, c) == r1
    ensures Cascade(tg, r, {t1, t2}, c, rounds) == OutOfRounds
  {
    FirstBatch(tg, r, s, t1, t2, e, c);
    WholeBatch(tg, r1, s, t1, t2, e, c);
    GrowsThenCycles(tg, r, {t1, t2}, r1, {s, t1, t2, e}, c, rounds);
  }

  /** The cascade from the two Turrets in the colour of the ends never
      settles. */
  lemma RowCascade(tg: Rule, r: Board, s: Pos, rounds: nat)
    requires Agrees(tg) && TurretRow(r, s) && r.nodes[At(s, 3)].color == r.nodes[s].color
    ensures Cascade(tg, r, {At(s, 1), At(s, 2)}, r.nodes[s].color, rounds) == OutOfRounds
  {
    var c := r.nodes[s].color;
    var r1 := Recolor(r, {At(s, 1), At(s, 2)}, c);
    RowTargets(r, s, c);
    RecolorRow(r, s, {At(s, 1), At(s, 2)}, c);
    RowTargets(r1, s, c);
    RowSettled(r, s, c);
    FourCellLoop(tg, r, r1, s, At(s, 1), At(s, 2), At(s, 3), c, rounds);
  }

  /** Once the Turrets take the colour of the ends, recolouring the whole
      row changes nothing. */
  lemma RowSettled(r: Board, s: Pos, c: Color)
    requires TurretRow(r, s) && r.nodes[At(s, 3)].color == c && r.nodes[s].color == c
    ensures var r1 := Recolor(r, {At(s, 1), At(s, 2)}, c);
            RowCells(s) <= r1.nodes.Keys && Recolor(r1, RowCells(s), c) == r1
  {
    RowEnds(r, s, c);
    SettledColour(r, {At(s, 1), At(s, 2)}, RowCells(s), c);
  }

  /** The move through the Turrets never settles when both ends share a
      colour: the first round passes that colour on to the whole row, and
      from then on the whole row is every round's batch. */
  lemma RowNeverSettles(r: Board, s: Pos, rounds: nat)
    requires TurretRow(r, s) && r.nodes[At(s, 3)].color == r.nodes[s].color
    ensures Apply(r, RowMove(s), rounds) == OutOfRounds
  {
    RowApply(r, s, rounds);
    RowCascade(KindTargets, r, s, rounds);
  }

  /** A cell side by side with `p` in direction `d`, not a Line, is a
      neighbour of `p` for an inbound axis by which `p` probes `d`. */
  lemma NextDoor(r: Board, p: Pos, d: Orientation, inbound: Option<Axis>)
    requires Canonical(r) && p in r.nodes && Step(p, d) in r.nodes && !r.nodes[Step(p, d)].kind.Line?
    requires Probes(r.nodes[p].kind, inbound, d)
    ensures Step(p, d) in Neighbors(r, r.nodes[p], inbound)
  {
    var q := Step(p, d);
    assert InBox(Box(r), p) && InBox(Box(r), q);
    NeighborComplete(r, p, d, q);
    NeighborsByKind(r, r.nodes[p], inbound, q);
  }

  /** Each cell of the move is a neighbour of the one before, probed to
      the right along the row. */
  lemma RowLinked(r: Board, s: Pos)
    requires TurretRow(r, s)
    ensures AllPlaced(r, RowMove(s)) && Linked(r, RowMove(s))
  {
    var a := RowMove(s);
    assert AllPlaced(r, a);
    NextDoor(r, s, Right, None);
    assert a[1] in Neighbors(r, r.nodes[a[0]], None);
    forall i | 1 <= i < |a| - 1
      ensures a[i + 1] in Neighbors(r, r.nodes[a[i]], Some(GetDirection(a[i - 1], a[i])))
    {
      RowLink(r, s, i);
    }
  }

  /** Entering cell `i` of the move horizontally, the next cell is a
      neighbour found to the right. */
  lemma RowLink(r: Board, s: Pos, i: int)
    requires TurretRow(r, s) && 1 <= i <= 2
    ensures var a := RowMove(s);
            a[i + 1] in Neighbors(r, r.nodes[a[i]], Some(GetDirection(a[i - 1], a[i])))
  {
    var a := RowMove(s);
    assert GetDirection(a[i - 1], a[i]) == Horizontal && Step(a[i], Right) == a[i + 1];
    NextDoor(r, a[i], Right, Some(Horizontal));
  }

  /** With the Turrets of one colour and the ends of another, the move
      through the Turrets is one discovery finds. */
  lemma RowMoveDiscovered(r: Board, s: Pos)
    requires TurretRow(r, s) && r.nodes[At(s, 3)].color == r.nodes[s].color
    requires r.nodes[At(s, 2)].color == r.nodes[At(s, 1)].color != r.nodes[s].color
    ensures RowMove(s) in Discovered(r)
  {
    RowLinked(r, s);
    ValidIsDiscovered(r, RowMove(s));
  }

  /** Such a board has a discovered move that never settles, whatever the
      round budget, so `solve` on it never returns. */
  lemma TurretRowUnsettled(r: Board, s: Pos, rounds: nat)
    requires TurretRow(r, s) && r.nodes[At(s, 3)].color == r.nodes[s].color
    requires r.nodes[At(s, 2)].color == r.nodes[At(s, 1)].color != r.nodes[s].color
    ensures Unsettled(r, rounds)
  {
    RowMoveDiscovered(r, s);
    RowNeverSettles(r, s, rounds);
  }
}
