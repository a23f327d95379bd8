/** Line of sight on the board: rays, the neighbour met in one direction,
    and each kind's neighbour rule. */
module Geometry {
  import opened Types
  import opened Boards

  /** `p` lies strictly beyond `o` when travelling from `o` in direction `d`. */
  predicate Ahead(o: Pos, p: Pos, d: Orientation)
  {
    match d
    case Up => p.0 == o.0 && p.1 < o.1
    case Down => p.0 == o.0 && p.1 > o.1
    case Left => p.1 == o.1 && p.0 < o.0
    case Right => p.1 == o.1 && p.0 > o.0
  }

  predicate AtOrAhead(o: Pos, p: Pos, d: Orientation)
  {
    p == o || Ahead(o, p, d)
  }

  /** `cur` is inside the box or already past it in direction `d`, never
      before it: true of the first step from any cell inside the box. */
  predicate NotBehind(box: Bounds, cur: Pos, d: Orientation)
  {
    match d
    case Up => cur.1 <= box.maxY
    case Down => cur.1 >= box.minY
    case Left => cur.0 <= box.maxX
    case Right => cur.0 >= box.minX
  }

  /** Steps a walk at `cur` still takes before leaving the box. */
  function StepsLeft(box: Bounds, cur: Pos, d: Orientation): int
  {
    match d
    case Up => cur.1 - box.minY + 1
    case Down => box.maxY - cur.1 + 1
    case Left => cur.0 - box.minX + 1
    case Right => box.maxX - cur.0 + 1
  }

  /** The cells a ray meets from `cur` on: non-Blank cells only, inside the
      box, nearest first; without pass-through it ends at the first position
      where nothing is placed (a Blank cell does not end it). */
  function Walk(b: Board, box: Bounds, cur: Pos, d: Orientation, passThrough: bool): (r: seq<Pos>)
    ensures forall p :: p in r ==> p in b.all && b.all[p].kind != Blank && InBox(box, p) && AtOrAhead(cur, p, d)
    decreases if InBox(box, cur) then StepsLeft(box, cur, d) else 0
  {
    if !InBox(box, cur) then []
    else if !passThrough && cur !in b.all then []
    else
      var rest := Walk(b, box, Step(cur, d), d, passThrough);
      assert forall p :: p in rest ==> Ahead(cur, p, d);
      if cur in b.all && b.all[cur].kind != Blank then [cur] + rest else rest
  }

  /** Every position of `r` lies beyond the ones before it in direction `d`. */
  predicate Ordered(r: seq<Pos>, d: Orientation)
  {
    forall i, j :: 0 <= i < j < |r| ==> Ahead(r[i], r[j], d)
  }

  /** A walk meets its cells nearest first. */
  lemma {:induction false} WalkOrdered(b: Board, box: Bounds, cur: Pos, d: Orientation, passThrough: bool)
    ensures Ordered(Walk(b, box, cur, d, passThrough), d)
    decreases if InBox(box, cur) then StepsLeft(box, cur, d) else 0
  {
    if InBox(box, cur) && (passThrough || cur in b.all) {
      var rest := Walk(b, box, Step(cur, d), d, passThrough);
      WalkOrdered(b, box, Step(cur, d), d, passThrough);
      assert forall p :: p in rest ==> Ahead(cur, p, d);
      if cur in b.all && b.all[cur].kind != Blank {
        var r := [cur] + rest;
        forall i, j | 0 <= i < j < |r| ensures Ahead(r[i], r[j], d) {
          assert r[j] == rest[j - 1] && r[j] in rest;
          if i > 0 {
            assert r[i] == rest[i - 1];
          }
        }
      }
    }
  }

  /** `Node.raycast`: the walk that starts one step away from `from`. */
  function Ray(b: Board, from: Pos, d: Orientation, passThrough: bool): seq<Pos>
    requires b.nodes != map[]
  {
    Walk(b, Box(b), Step(from, d), d, passThrough)
  }

  /** `Node.raycast` as the source writes it: a loop moving (x, y) one step
      at a time while it stays inside the box. */
  method Raycast(b: Board, from: Pos, d: Orientation, passThrough: bool) returns (result: seq<Pos>)
    requires b.nodes != map[]
    ensures result == Ray(b, from, d, passThrough)
  {
    var box := Box(b);
    var cur := Step(from, d);
    ghost var whole := Walk(b, box, cur, d, passThrough);
    result := [];
    while InBox(box, cur)
      invariant result + Walk(b, box, cur, d, passThrough) == whole
      decreases StepsLeft(box, cur, d)
    {
      ghost var rest := Walk(b, box, cur, d, passThrough);
      if !passThrough && cur !in b.all {
        assert rest == [];
        break;
      }
      ghost var later := Walk(b, box, Step(cur, d), d, passThrough);
      if cur in b.all && b.all[cur].kind != Blank {
        assert rest == [cur] + later;
        AppendAssoc(result, cur, later);
        result := result + [cur];
      } else {
        assert rest == later;
      }
      cur := Step(cur, d);
    }
  }

  lemma AppendAssoc(s: seq<Pos>, x: Pos, t: seq<Pos>)
    ensures (s + [x]) + t == s + ([x] + t)
  {
  }

  /** Every position strictly between `o` and `p` holds a placed cell. */
  ghost predicate NoGap(b: Board, o: Pos, p: Pos, d: Orientation)
  {
    forall q :: Ahead(o, q, d) && Ahead(q, p, d) ==> q in b.all
  }

  lemma {:induction false} WalkMembers(b: Board, box: Bounds, cur: Pos, d: Orientation, passThrough: bool, p: Pos)
    requires NotBehind(box, cur, d)
    ensures p in Walk(b, box, cur, d, passThrough) <==>
              && InBox(box, p) && p in b.all && b.all[p].kind != Blank && AtOrAhead(cur, p, d)
              && (!passThrough ==> cur in b.all && NoGap(b, cur, p, d))
    decreases if InBox(box, cur) then StepsLeft(box, cur, d) else 0
  {
    var next := Step(cur, d);
    if !InBox(box, cur) {
    } else if !passThrough && cur !in b.all {
    } else {
      WalkMembers(b, box, next, d, passThrough, p);
      assert AtOrAhead(cur, p, d) <==> p == cur || AtOrAhead(next, p, d);
      if !passThrough && Ahead(next, p, d) {
        if NoGap(b, cur, p, d) {
          assert next in b.all by { assert Ahead(cur, next, d) && Ahead(next, p, d); }
          forall q | Ahead(next, q, d) && Ahead(q, p, d) ensures q in b.all {
            assert Ahead(cur, q, d);
          }
        }
        if next in b.all && NoGap(b, next, p, d) {
          forall q | Ahead(cur, q, d) && Ahead(q, p, d) ensures q in b.all {
            assert q == next || Ahead(next, q, d);
          }
        }
      }
    }
  }

  /** What a ray returns, independently of the loop: with pass-through,
      every non-Blank cell strictly ahead inside the box; without it, only
      those not separated from the origin by an empty position. */
  lemma RayCharacterised(b: Board, from: Pos, d: Orientation, passThrough: bool, p: Pos)
    requires b.nodes != map[] && InBox(Box(b), from)
    ensures p in Ray(b, from, d, passThrough) <==>
              && InBox(Box(b), p) && p in b.all && b.all[p].kind != Blank && Ahead(from, p, d)
              && (!passThrough ==> NoGap(b, from, p, d))
  {
    var next := Step(from, d);
    WalkMembers(b, Box(b), next, d, passThrough, p);
    assert AtOrAhead(next, p, d) <==> Ahead(from, p, d);
    if !passThrough && Ahead(from, p, d) {
      if NoGap(b, from, p, d) && p != next {
        assert next in b.all by { assert Ahead(from, next, d) && Ahead(next, p, d); }
        forall q | Ahead(next, q, d) && Ahead(q, p, d) ensures q in b.all {
          assert Ahead(from, q, d);
        }
      }
      if p == next || (next in b.all && NoGap(b, next, p, d)) {
        forall q | Ahead(from, q, d) && Ahead(q, p, d) ensures q in b.all {
          assert q == next || Ahead(next, q, d);
        }
      }
    }
  }

  /** `get_direction`: VERTICAL when the two positions share their x. */
  function GetDirection(v1: Pos, v2: Pos): Axis
  {
    if v1.0 == v2.0 then Vertical else Horizontal
  }

  lemma AheadGivesAxis(o: Pos, p: Pos, d: Orientation)
    requires Ahead(o, p, d)
    ensures GetDirection(o, p) == AxisOf(d)
  {
  }

  /** `Node.get_neighbor_in_direction`: the first hit of a ray that stops at
      gaps, unless that hit is a Line cell lying across the direction. */
  function NeighborInDirection(b: Board, from: Pos, d: Orientation): (r: Option<Pos>)
    requires WF(b) && b.nodes != map[]
    ensures r.Some? ==> r.value in b.nodes && Ahead(from, r.value, d)
  {
    var ray := Ray(b, from, d, false);
    if ray == [] then None
    else
      var hit := ray[0];
      assert hit in ray;
      if b.nodes[hit].kind.Line? then
        if b.nodes[hit].kind.axis == GetDirection(from, hit) then Some(hit) else None
      else Some(hit)
  }

  /** Every position strictly between `o` and `p` holds a Blank cell. */
  ghost predicate OnlyBlanksBetween(b: Board, o: Pos, p: Pos, d: Orientation)
  {
    forall q :: Ahead(o, q, d) && Ahead(q, p, d) ==> q in b.all && b.all[q].kind == Blank
  }

  /** The neighbour in a direction is the nearest non-Blank cell ahead,
      reached over Blank cells only, inside the box, and accepted when it is
      a Line only if the Line runs along the direction. */
  lemma NeighborCharacterised(b: Board, from: Pos, d: Orientation, p: Pos)
    requires WF(b) && b.nodes != map[] && InBox(Box(b), from)
    ensures NeighborInDirection(b, from, d) == Some(p) <==>
              && InBox(Box(b), p) && p in b.all && b.all[p].kind != Blank && Ahead(from, p, d)
              && OnlyBlanksBetween(b, from, p, d)
              && (b.nodes[p].kind.Line? ==> b.nodes[p].kind.axis == AxisOf(d))
  {
    if NeighborInDirection(b, from, d) == Some(p) {
      NeighborSound(b, from, d, p);
    }
    if && InBox(Box(b), p) && p in b.all && b.all[p].kind != Blank && Ahead(from, p, d)
       && OnlyBlanksBetween(b, from, p, d)
       && (b.nodes[p].kind.Line? ==> b.nodes[p].kind.axis == AxisOf(d))
    {
      NeighborComplete(b, from, d, p);
    }
  }

  lemma NeighborSound(b: Board, from: Pos, d: Orientation, p: Pos)
    requires WF(b) && b.nodes != map[] && InBox(Box(b), from)
    requires NeighborInDirection(b, from, d) == Some(p)
    ensures && InBox(Box(b), p) && p in b.all && b.all[p].kind != Blank && Ahead(from, p, d)
            && OnlyBlanksBetween(b, from, p, d)
            && (b.nodes[p].kind.Line? ==> b.nodes[p].kind.axis == AxisOf(d))
  {
    var ray := Ray(b, from, d, false);
    WalkOrdered(b, Box(b), Step(from, d), d, false);
    assert ray != [] && ray[0] == p;
    RayCharacterised(b, from, d, false, p);
    AheadGivesAxis(from, p, d);
    forall q | Ahead(from, q, d) && Ahead(q, p, d) ensures q in b.all && b.all[q].kind == Blank {
      FirstHitBlankBefore(b, from, d, q);
    }
  }

  /** Every cell before the first hit of a ray is Blank. */
  lemma FirstHitBlankBefore(b: Board, from: Pos, d: Orientation, q: Pos)
    requires WF(b) && b.nodes != map[] && InBox(Box(b), from)
    requires NeighborInDirection(b, from, d).Some?
    requires var p := NeighborInDirection(b, from, d).value;
             Ahead(from, q, d) && Ahead(q, p, d)
    ensures q in b.all && b.all[q].kind == Blank
  {
    var p := NeighborInDirection(b, from, d).value;
    var ray := Ray(b, from, d, false);
    WalkOrdered(b, Box(b), Step(from, d), d, false);
    assert ray != [] && ray[0] == p;
    RayCharacterised(b, from, d, false, p);
    if q !in b.all || b.all[q].kind != Blank {
      RayCharacterised(b, from, d, false, q);
      assert false;
    }
  }

  lemma NeighborComplete(b: Board, from: Pos, d: Orientation, p: Pos)
    requires WF(b) && b.nodes != map[] && InBox(Box(b), from)
    requires && InBox(Box(b), p) && p in b.all && b.all[p].kind != Blank && Ahead(from, p, d)
             && OnlyBlanksBetween(b, from, p, d)
             && (b.nodes[p].kind.Line? ==> b.nodes[p].kind.axis == AxisOf(d))
    ensures NeighborInDirection(b, from, d) == Some(p)
  {
    var ray := Ray(b, from, d, false);
    WalkOrdered(b, Box(b), Step(from, d), d, false);
    assert NoGap(b, from, p, d);
    RayCharacterised(b, from, d, false, p);
    assert p in ray;
    var h := ray[0];
    assert h in ray;
    RayCharacterised(b, from, d, false, h);
    if h != p {
      assert false;
    }
    AheadGivesAxis(from, p, d);
  }

  /** The directions a cell of kind `k` probes when entered along `inbound`
      (None for the first cell of a move). */
  predicate Probes(k: Kind, inbound: Option<Axis>, d: Orientation)
  {
    match k
    case Square => true
    case Line(axis) => (inbound.None? || inbound.value == axis) && AxisOf(d) == axis
    case _ => inbound.None? || inbound.value == AxisOf(d)
  }

  /** The neighbours found in the directions `ds`, in that order. */
  function Collect(b: Board, from: Pos, ds: seq<Orientation>): (r: seq<Pos>)
    requires WF(b) && b.nodes != map[]
    ensures forall p :: p in r ==> p in b.nodes && p != from
  {
    if ds == [] then []
    else
      var rest := Collect(b, from, ds[1..]);
      match NeighborInDirection(b, from, ds[0])
      case None => rest
      case Some(p) => [p] + rest
  }

  /** What `Collect` gathers: the neighbours in the directions `ds`. */
  lemma {:induction false} CollectMembers(b: Board, from: Pos, ds: seq<Orientation>, p: Pos)
    requires WF(b) && b.nodes != map[]
    ensures p in Collect(b, from, ds) <==> exists d :: d in ds && NeighborInDirection(b, from, d) == Some(p)
  {
    if ds != [] {
      CollectMembers(b, from, ds[1..], p);
      assert forall d :: d in ds <==> d == ds[0] || d in ds[1..];
    }
  }

  /** The directions each kind's rule probes, in the order the source
      appends them. */
  function ProbeList(k: Kind, inbound: Option<Axis>): seq<Orientation>
  {
    match k
    case Blank => []
    case Square => [Up, Down, Left, Right]
    case Line(axis) =>
      if inbound.Some? && inbound.value != axis then []
      else if axis == Vertical then [Up, Down] else [Left, Right]
    case _ =>
      (if inbound.None? || inbound.value == Vertical then [Up, Down] else [])
      + (if inbound.None? || inbound.value == Horizontal then [Left, Right] else [])
  }

  lemma ProbedDirections(k: Kind, inbound: Option<Axis>)
    requires k != Blank
    ensures forall d :: d in ProbeList(k, inbound) <==> Probes(k, inbound, d)
  {
    forall d: Orientation ensures d in ProbeList(k, inbound) <==> Probes(k, inbound, d) {
      match d
      case Up =>
      case Down =>
      case Left =>
      case Right =>
    }
  }

  /** `get_neighbors`: the neighbours in the directions the kind probes;
      Basic and its subclasses (Turret, Diamond, Triangle, Area) probe the
      inbound axis only, Square always all four directions, Line nothing
      when entered across its axis and otherwise only along it. */
  function Neighbors(b: Board, c: Cell, inbound: Option<Axis>): (r: seq<Pos>)
    requires WF(b) && b.nodes != map[]
    ensures forall p :: p in r ==> p in b.nodes && p != c.position
  {
    Collect(b, c.position, ProbeList(c.kind, inbound))
  }

  /** The neighbours are exactly the neighbours-in-direction over the
      directions the kind's rule probes. */
  lemma NeighborsByKind(b: Board, c: Cell, inbound: Option<Axis>, p: Pos)
    requires WF(b) && b.nodes != map[] && c.kind != Blank
    ensures p in Neighbors(b, c, inbound) <==>
              exists d :: Probes(c.kind, inbound, d) && NeighborInDirection(b, c.position, d) == Some(p)
  {
    ProbedDirections(c.kind, inbound);
    CollectMembers(b, c.position, ProbeList(c.kind, inbound), p);
  }
}
