/** What a move does to the board: the cells each kind passes the new colour
    on to, and the round-by-round cascade that recolours them. */
module Effects {
  import opened Types
  import opened Boards
  import opened Geometry
  import opened Discovery

  // ---- Turret ----

  /** Turret: every cell a pass-through ray meets along any of its facings. */
  function TurretTargets(r: Board, p: Pos, os: seq<Orientation>): (t: set<Pos>)
    requires p in r.nodes
    ensures t <= r.nodes.Keys && p !in t
  {
    set q | q in r.nodes && OnSomeRay(r, p, os, q)
  }

  /** `q` is met by the pass-through ray along one of the facings `os`. */
  predicate OnSomeRay(r: Board, p: Pos, os: seq<Orientation>, q: Pos)
    requires r.nodes != map[]
  {
    exists i :: 0 <= i < |os| && q in Ray(r, p, os[i], true)
  }

  // ---- Diamond ----

  /** `q` is one of the four cells next to `x`. */
  predicate Adjacent4(x: Pos, q: Pos)
  {
    (q.0 == x.0 && (q.1 == x.1 - 1 || q.1 == x.1 + 1))
    || (q.1 == x.1 && (q.0 == x.0 - 1 || q.0 == x.0 + 1))
  }

  /** The non-Blank cells next to `x` that have colour `col`. */
  function ColorNeighbors(r: Board, col: Color, x: Pos): set<Pos>
  {
    set q | q in r.nodes && Adjacent4(x, q) && r.nodes[q].color == col
  }

  /** `DiamondNode.get_color_neighbors`: up, down, left, right, keeping
      the placed non-Blank cells of colour `col`. */
  method ColorNeighborList(r: Board, col: Color, x: Pos) returns (ns: seq<Pos>)
    ensures forall q :: q in ns <==> q in ColorNeighbors(r, col, x)
  {
    var around := [(x.0, x.1 - 1), (x.0, x.1 + 1), (x.0 - 1, x.1), (x.0 + 1, x.1)];
    assert forall q :: q in around <==> Adjacent4(x, q);
    ns := [];
    for i := 0 to 4
      invariant forall q :: q in ns <==> q in around[..i] && q in r.nodes && r.nodes[q].color == col
    {
      var q := around[i];
      assert around[..i + 1] == around[..i] + [q];
      if q in r.nodes && r.nodes[q].color == col {
        ns := ns + [q];
      }
    }
    assert around[..4] == around;
  }

  /** A set of cells no colour step leaves. */
  ghost predicate Closed(r: Board, col: Color, s: set<Pos>)
  {
    forall x, q :: x in s && q in ColorNeighbors(r, col, x) ==> q in s
  }

  /** One flooding step: `s` and every colour neighbour of its cells. */
  function Grow(r: Board, col: Color, s: set<Pos>): set<Pos>
  {
    s + set x, q | x in s && q in ColorNeighbors(r, col, x) :: q
  }

  /** Repeats `Grow` until nothing is added. */
  function Flood(r: Board, col: Color, s: set<Pos>): (c: set<Pos>)
    requires s <= r.nodes.Keys
    ensures s <= c <= r.nodes.Keys
    decreases |r.nodes.Keys - s|
  {
    var g := Grow(r, col, s);
    if g == s then s
    else
      StrictlyFewer(r.nodes.Keys, s, g);
      Flood(r, col, g)
  }

  lemma StrictlyFewer(u: set<Pos>, s: set<Pos>, g: set<Pos>)
    requires s <= g <= u && g != s
    ensures |u - g| < |u - s|
  {
    var x :| x in g && x !in s;
    SubsetNoLarger(u - g, (u - s) - {x});
  }

  lemma {:induction false} SubsetNoLarger(a: set<Pos>, b: set<Pos>)
    requires a <= b
    ensures |a| <= |b|
    decreases |a|
  {
    if a != {} {
      var x :| x in a;
      SubsetNoLarger(a - {x}, b - {x});
    }
  }

  /** The cells reachable from `p` through 4-adjacent cells of colour `col`
      (`p` itself whatever its colour). */
  function Region(r: Board, col: Color, p: Pos): set<Pos>
    requires p in r.nodes
  {
    Flood(r, col, {p})
  }

  lemma {:induction false} FloodClosed(r: Board, col: Color, s: set<Pos>)
    requires s <= r.nodes.Keys
    ensures Closed(r, col, Flood(r, col, s))
    decreases |r.nodes.Keys - s|
  {
    var g := Grow(r, col, s);
    if g != s {
      StrictlyFewer(r.nodes.Keys, s, g);
      FloodClosed(r, col, g);
    } else {
      forall x, q | x in s && q in ColorNeighbors(r, col, x) ensures q in s {
        assert q in g;
      }
    }
  }

  lemma {:induction false} FloodLeast(r: Board, col: Color, s: set<Pos>, S: set<Pos>)
    requires s <= r.nodes.Keys && s <= S && Closed(r, col, S)
    ensures Flood(r, col, s) <= S
    decreases |r.nodes.Keys - s|
  {
    var g := Grow(r, col, s);
    if g != s {
      StrictlyFewer(r.nodes.Keys, s, g);
      FloodLeast(r, col, g, S);
    }
  }

  /** The region is the least set holding `p` that no colour step leaves,
      and apart from `p` it holds only cells of colour `col`. */
  lemma RegionCharacterised(r: Board, col: Color, p: Pos)
    requires p in r.nodes
    ensures p in Region(r, col, p) && Closed(r, col, Region(r, col, p))
    ensures forall S :: p in S && Closed(r, col, S) ==> Region(r, col, p) <= S
    ensures forall q :: q in Region(r, col, p) && q != p ==> q in r.nodes && r.nodes[q].color == col
  {
    FloodClosed(r, col, {p});
    forall S | p in S && Closed(r, col, S) ensures Region(r, col, p) <= S {
      FloodLeast(r, col, {p}, S);
    }
    var same := {p} + set q | q in r.nodes && r.nodes[q].color == col;
    FloodLeast(r, col, {p}, same);
  }

  /** What a Diamond passes the colour on to: its region minus itself. */
  function DiamondRegion(r: Board, p: Pos): set<Pos>
    requires p in r.nodes
  {
    set q | q in r.nodes && q != p && InRegion(r, p, q)
  }

  predicate InRegion(r: Board, p: Pos, q: Pos)
    requires p in r.nodes
  {
    q in Region(r, r.nodes[p].color, p)
  }

  /** `[nb for nb in ns if nb not in visited]`. */
  function Fresh(ns: seq<Pos>, visited: set<Pos>): (r: seq<Pos>)
    ensures forall i :: 0 <= i < |r| ==> r[i] in ns && r[i] !in visited
    ensures forall q :: q in ns && q !in visited ==> q in r
  {
    if ns == [] then []
    else (if ns[0] in visited then [] else [ns[0]]) + Fresh(ns[1..], visited)
  }

  /** How many queue entries are already visited. */
  function VisitedEntries(queue: seq<Pos>, visited: set<Pos>): nat
  {
    if queue == [] then 0
    else (if queue[0] in visited then 1 else 0) + VisitedEntries(queue[1..], visited)
  }

  lemma {:induction false} VisitedEntriesAppend(a: seq<Pos>, b: seq<Pos>, visited: set<Pos>)
    requires forall i :: 0 <= i < |b| ==> b[i] !in visited
    ensures VisitedEntries(a + b, visited) == VisitedEntries(a, visited)
  {
    if a == [] {
      assert a + b == b;
      VisitedEntriesFresh(b, visited);
    } else {
      assert (a + b)[1..] == a[1..] + b;
      VisitedEntriesAppend(a[1..], b, visited);
    }
  }

  lemma {:induction false} VisitedEntriesFresh(b: seq<Pos>, visited: set<Pos>)
    requires forall i :: 0 <= i < |b| ==> b[i] !in visited
    ensures VisitedEntries(b, visited) == 0
  {
    if b != [] {
      VisitedEntriesFresh(b[1..], visited);
    }
  }

  /** Every colour neighbour of a visited cell is visited or queued. */
  ghost predicate ClosedUpTo(r: Board, col: Color, visited: set<Pos>, queue: seq<Pos>)
  {
    forall x, q :: x in visited && q in ColorNeighbors(r, col, x) ==> q in visited || q in queue
  }

  /** Popping the head of the queue, marking it visited and queueing its
      unvisited colour neighbours keeps `ClosedUpTo`. */
  lemma VisitKeepsClosed(r: Board, col: Color, visited: set<Pos>, queue: seq<Pos>, ns: seq<Pos>)
    requires queue != [] && ClosedUpTo(r, col, visited, queue)
    requires forall q :: q in ns <==> q in ColorNeighbors(r, col, queue[0])
    ensures var visited' := visited + {queue[0]};
            ClosedUpTo(r, col, visited', queue[1..] + Fresh(ns, visited'))
  {
    var visited' := visited + {queue[0]};
    var queue' := queue[1..] + Fresh(ns, visited');
    forall x, q | x in visited' && q in ColorNeighbors(r, col, x) ensures q in visited' || q in queue' {
      if x != queue[0] && q != queue[0] && q !in visited {
        assert q in queue;
        var i :| 0 <= i < |queue| && queue[i] == q;
        assert queue'[i - 1] == q;
      }
    }
  }

  /** The search invariant: everything seen lies in the region, `p` has
      been seen, and every visited cell's colour neighbours are seen. */
  ghost predicate Searching(r: Board, col: Color, p: Pos, visited: set<Pos>, queue: seq<Pos>)
    requires p in r.nodes
  {
    var region := Region(r, col, p);
    && visited <= region
    && (forall i :: 0 <= i < |queue| ==> queue[i] in region)
    && (p in visited || p in queue)
    && ClosedUpTo(r, col, visited, queue)
  }

  /** One step of the search keeps `Searching` and either visits a new
      cell of the region or drops an already visited queue entry. */
  lemma SearchStep(r: Board, col: Color, p: Pos, visited: set<Pos>, queue: seq<Pos>, ns: seq<Pos>)
    requires p in r.nodes && queue != [] && Searching(r, col, p, visited, queue)
    requires forall q :: q in ns <==> q in ColorNeighbors(r, col, queue[0])
    ensures var visited' := visited + {queue[0]};
            var queue' := queue[1..] + Fresh(ns, visited');
            var region := Region(r, col, p);
            && Searching(r, col, p, visited', queue')
            && (|region - visited'| < |region - visited|
                || (|region - visited'| == |region - visited|
                    && VisitedEntries(queue', visited') < VisitedEntries(queue, visited)))
  {
    var region := Region(r, col, p);
    var current := queue[0];
    var visited' := visited + {current};
    var newer := Fresh(ns, visited');
    var queue' := queue[1..] + newer;
    FloodClosed(r, col, {p});
    VisitKeepsClosed(r, col, visited, queue, ns);
    assert current in region;
    forall i | 0 <= i < |queue'| ensures queue'[i] in region {
      if i >= |queue| - 1 {
        assert newer[i - (|queue| - 1)] in ColorNeighbors(r, col, current);
      } else {
        assert queue'[i] == queue[i + 1];
      }
    }
    if current in visited {
      assert visited' == visited;
      assert VisitedEntries(queue, visited) == 1 + VisitedEntries(queue[1..], visited);
      VisitedEntriesAppend(queue[1..], newer, visited);
    } else {
      assert region - visited' < region - visited;
    }
  }

  /** `DiamondNode.get_targets`: a breadth-first search from the diamond
      through cells of its current colour; the diamond itself is dropped. */
  method DiamondTargets(r: Board, p: Pos) returns (t: set<Pos>)
    requires p in r.nodes
    ensures t == DiamondRegion(r, p)
  {
    var col := r.nodes[p].color;
    ghost var region := Region(r, col, p);
    FloodClosed(r, col, {p});
    var visited: set<Pos> := {};
    var unvisited: seq<Pos> := [p];
    while unvisited != []
      invariant Searching(r, col, p, visited, unvisited)
      decreases |region - visited|, VisitedEntries(unvisited, visited)
    {
      var current := unvisited[0];
      var ns := ColorNeighborList(r, col, current);
      SearchStep(r, col, p, visited, unvisited, ns);
      visited := visited + {current};
      unvisited := unvisited[1..] + Fresh(ns, visited);
    }
    assert Closed(r, col, visited);
    FloodLeast(r, col, {p}, visited);
    t := set q | q in visited && q != p;
  }

  // ---- Triangle, Area and the dispatch ----

  /** Triangle: every other Triangle whose colour is not yet the new one. */
  function TriangleTargets(r: Board, p: Pos, newColor: Color): (t: set<Pos>)
  {
    set q | q in r.nodes && r.nodes[q].kind == Triangle && q != p && r.nodes[q].color != newColor
  }

  /** Area: the non-Blank cells among the eight around it whose colour is
      not yet the new one. */
  function AreaTargets(r: Board, p: Pos, newColor: Color): (t: set<Pos>)
  {
    set q | q in r.nodes && q != p && -1 <= q.0 - p.0 <= 1 && -1 <= q.1 - p.1 <= 1
            && r.nodes[q].color != newColor
  }

  /** `get_targets`: the cells the cell at `p` passes `newColor` on to,
      never the cell itself; kinds without an override pass nothing on. */
  function Targets(r: Board, p: Pos, newColor: Color): (t: set<Pos>)
    requires p in r.nodes
    ensures t <= r.nodes.Keys && p !in t
  {
    match r.nodes[p].kind
    case Turret(os) => TurretTargets(r, p, os)
    case Diamond => DiamondRegion(r, p)
    case Triangle => TriangleTargets(r, p, newColor)
    case Area => AreaTargets(r, p, newColor)
    case _ => {}
  }

  /** A target rule: the cells a cell passes a new colour on to. */
  type Rule = (Board, Pos, Color) -> set<Pos>

  /** The source's dispatch on the class of the cell: `Targets` for a
      placed cell (a missing cell raises before any rule is asked). */
  function KindTargets(r: Board, p: Pos, newColor: Color): set<Pos>
  {
    if p in r.nodes then Targets(r, p, newColor) else {}
  }

  /** `tg` gives what the dispatch on the kind of the cell gives, on every
      board, cell and colour. */
  ghost predicate Agrees(tg: Rule)
  {
    forall r, p, c {:trigger KindTargets(r, p, c)} :: tg(r, p, c) == KindTargets(r, p, c)
  }

  /** What each kind passes on, stated through the geometry rather than
      through the traversal that finds it. */
  lemma TargetsCharacterised(r: Board, p: Pos, newColor: Color, q: Pos)
    requires Canonical(r) && p in r.nodes
    ensures var c := r.nodes[p];
            q in Targets(r, p, newColor) <==>
              match c.kind
              case Turret(os) =>
                exists d :: d in os && InBox(Box(r), q) && q in r.nodes && Ahead(p, q, d)
              case Diamond =>
                q != p && q in Region(r, c.color, p)
              case Triangle =>
                q in r.nodes && q != p && r.nodes[q].kind == Triangle && r.nodes[q].color != newColor
              case Area =>
                q in r.nodes && q != p && -1 <= q.0 - p.0 <= 1 && -1 <= q.1 - p.1 <= 1
                && r.nodes[q].color != newColor
              case _ => false
  {
    if r.nodes[p].kind.Turret? {
      TurretTargetsCharacterised(r, p, r.nodes[p].kind.orientations, q);
    }
  }

  /** A Turret passes the colour on to exactly the cells ahead of one of its
      facings, inside the bounding box, whatever lies between. */
  lemma TurretTargetsCharacterised(r: Board, p: Pos, os: seq<Orientation>, q: Pos)
    requires Canonical(r) && p in r.nodes
    ensures q in TurretTargets(r, p, os) <==>
            exists d :: d in os && InBox(Box(r), q) && q in r.nodes && Ahead(p, q, d)
  {
    assert InBox(Box(r), p);
    forall d | d in os
      ensures q in Ray(r, p, d, true) <==> InBox(Box(r), q) && q in r.nodes && Ahead(p, q, d)
    {
      RayCharacterised(r, p, d, true, q);
    }
    if q in TurretTargets(r, p, os) {
      var i :| 0 <= i < |os| && q in Ray(r, p, os[i], true);
      assert os[i] in os;
    }
    if exists d :: d in os && InBox(Box(r), q) && q in r.nodes && Ahead(p, q, d) {
      var d :| d in os && InBox(Box(r), q) && q in r.nodes && Ahead(p, q, d);
      var i :| 0 <= i < |os| && os[i] == d;
      assert q in Ray(r, p, os[i], true);
    }
  }

  /** `TurretNode.get_targets`: one raycast per facing, passing through
      Blank cells, the hits gathered into one set. */
  method TurretRaycasts(r: Board, p: Pos, os: seq<Orientation>) returns (t: set<Pos>)
    requires Canonical(r) && p in r.nodes
    ensures t == TurretTargets(r, p, os)
  {
    t := {};
    for i := 0 to |os|
      invariant t <= r.nodes.Keys
      invariant forall q :: q in t <==> OnSomeRay(r, p, os[..i], q)
    {
      var hits := Raycast(r, p, os[i], true);
      AddRay(r, p, os, i, t);
      t := t + set q | q in hits;
    }
    assert os[..|os|] == os;
  }

  /** Adding the hits of facing `i` to what the facings before it reach. */
  lemma AddRay(r: Board, p: Pos, os: seq<Orientation>, i: nat, t: set<Pos>)
    requires WF(r) && r.nodes != map[] && i < |os|
    requires t <= r.nodes.Keys && forall q :: q in t <==> OnSomeRay(r, p, os[..i], q)
    ensures var t' := t + set q | q in Ray(r, p, os[i], true);
            && t' <= r.nodes.Keys
            && forall q :: q in t' <==> OnSomeRay(r, p, os[..i + 1], q)
  {
    OnSomeRayStep(r, p, os, i);
    forall q | q in Ray(r, p, os[i], true) ensures q in r.nodes {
      assert q in r.all && r.all[q].kind != Blank;
    }
  }

  /** The facings up to `i + 1` reach what those up to `i` reach and what
      facing `i` reaches. */
  lemma OnSomeRayStep(r: Board, p: Pos, os: seq<Orientation>, i: nat)
    requires r.nodes != map[] && i < |os|
    ensures forall q :: OnSomeRay(r, p, os[..i + 1], q) <==>
                        OnSomeRay(r, p, os[..i], q) || q in Ray(r, p, os[i], true)
  {
    forall q ensures OnSomeRay(r, p, os[..i + 1], q) ==>
                     OnSomeRay(r, p, os[..i], q) || q in Ray(r, p, os[i], true)
    {
      if OnSomeRay(r, p, os[..i + 1], q) {
        var j :| 0 <= j < i + 1 && q in Ray(r, p, os[..i + 1][j], true);
        if j < i {
          assert os[..i][j] == os[j];
        }
      }
    }
    forall q | q in Ray(r, p, os[i], true) ensures OnSomeRay(r, p, os[..i + 1], q) {
      assert os[..i + 1][i] == os[i];
    }
    forall q | OnSomeRay(r, p, os[..i], q) ensures OnSomeRay(r, p, os[..i + 1], q) {
      var j :| 0 <= j < i && q in Ray(r, p, os[..i][j], true);
      assert os[..i + 1][j] == os[..i][j];
    }
  }

  /** `get_targets` as the source computes it: a loop of raycasts for a
      Turret, the breadth-first search for a Diamond. */
  method GetTargets(r: Board, p: Pos, newColor: Color) returns (t: set<Pos>)
    requires Canonical(r) && p in r.nodes
    ensures t == Targets(r, p, newColor)
  {
    match r.nodes[p].kind {
      case Turret(os) =>
        t := TurretRaycasts(r, p, os);
      case Diamond =>
        t := DiamondTargets(r, p);
      case Triangle =>
        t := TriangleTargets(r, p, newColor);
      case Area =>
        t := AreaTargets(r, p, newColor);
      case _ =>
        t := {};
    }
  }

  // ---- apply_to ----

  /** How `apply_to` ends: with the new board, or with the error the source
      raises (an empty path, a cell missing from `nodes`), or with the
      round budget spent while batches remain. */
  datatype Outcome = Done(board: Board) | IndexOutOfRange | KeyMissing | OutOfRounds

  /** The cells `batch` passes the new colour on to, all computed on `r`
      before any of the batch is recoloured. */
  function BatchTargets(tg: Rule, r: Board, batch: set<Pos>, c: Color): set<Pos>
  {
    set x, q | x in batch && q in tg(r, x, c) :: q
  }

  /** Every cell of `batch` takes colour `c`; cells are shared between
      `all` and `nodes`, so both maps change. */
  function Recolor(r: Board, batch: set<Pos>, c: Color): Board
  {
    Board(map q | q in r.all :: if q in batch then r.all[q].(color := c) else r.all[q],
          map q | q in r.nodes :: if q in batch then r.nodes[q].(color := c) else r.nodes[q])
  }

  /** Recolouring keeps a board canonical: `all` and `nodes` still share
      their cells. */
  lemma RecolorCanonical(r: Board, batch: set<Pos>, c: Color)
    requires Canonical(r)
    ensures Canonical(Recolor(r, batch, c))
  {
    RecolorWellFormed(r, batch, c);
    var r' := Recolor(r, batch, c);
    forall p | p in r'.nodes ensures r'.all[p] == r'.nodes[p] {
      assert r.all[p] == r.nodes[p];
    }
  }

  /** Recolouring keeps positions and kinds, so a well-formed board stays
      well-formed. */
  lemma RecolorWellFormed(r: Board, batch: set<Pos>, c: Color)
    requires WF(r)
    ensures WF(Recolor(r, batch, c))
  {
    RecolorKeepsCells(r, batch, c);
  }

  lemma RecolorKeepsCells(r: Board, batch: set<Pos>, c: Color)
    ensures var r' := Recolor(r, batch, c);
            && (forall q :: q in r'.all ==> r'.all[q].position == r.all[q].position && r'.all[q].kind == r.all[q].kind)
            && (forall q :: q in r'.nodes ==> r'.nodes[q].position == r.nodes[q].position && r'.nodes[q].kind == r.nodes[q].kind)
            && (forall q :: q in r'.all && q in r'.nodes && r.all[q] == r.nodes[q] ==> r'.all[q] == r'.nodes[q])
  {
  }

  /** Recolouring no cell changes nothing. */
  lemma RecolorNone(r: Board, c: Color)
    ensures Recolor(r, {}, c) == r
  {
    assert Recolor(r, {}, c).all == r.all;
    assert Recolor(r, {}, c).nodes == r.nodes;
  }

  /** `node.color = color` on one cell of the cloned board. */
  function SetColor(r: Board, q: Pos, c: Color): Board
    requires q in r.nodes && q in r.all
  {
    Board(r.all[q := r.all[q].(color := c)], r.nodes[q := r.nodes[q].(color := c)])
  }

  lemma RecolorAddOne(r: Board, done: set<Pos>, q: Pos, c: Color)
    requires q in r.nodes && q in r.all
    ensures SetColor(Recolor(r, done, c), q, c) == Recolor(r, done + {q}, c)
  {
    var a := SetColor(Recolor(r, done, c), q, c);
    var b := Recolor(r, done + {q}, c);
    assert a.all == b.all;
    assert a.nodes == b.nodes;
  }

  /** Recolouring one more cell of the batch, as the loop over it does. */
  lemma RecolorNext(r: Board, batch: set<Pos>, todo: set<Pos>, q: Pos, c: Color)
    requires q in todo && todo <= batch && q in r.nodes && q in r.all
    ensures var r' := Recolor(r, batch - todo, c);
            && q in r'.nodes && q in r'.all
            && SetColor(r', q, c) == Recolor(r, batch - (todo - {q}), c)
  {
    RecolorAddOne(r, batch - todo, q, c);
    assert batch - (todo - {q}) == (batch - todo) + {q};
  }

  lemma RecolorTwice(r: Board, s: set<Pos>, t: set<Pos>, c: Color)
    ensures Recolor(Recolor(r, s, c), t, c) == Recolor(r, s + t, c)
  {
    RecolorTwiceAll(r, s, t, c);
    RecolorTwiceNodes(r, s, t, c);
  }

  lemma RecolorTwiceAll(r: Board, s: set<Pos>, t: set<Pos>, c: Color)
    ensures Recolor(Recolor(r, s, c), t, c).all == Recolor(r, s + t, c).all
  {
  }

  lemma RecolorTwiceNodes(r: Board, s: set<Pos>, t: set<Pos>, c: Color)
    ensures Recolor(Recolor(r, s, c), t, c).nodes == Recolor(r, s + t, c).nodes
  {
  }

  lemma BatchTargetsAddOne(tg: Rule, r: Board, done: set<Pos>, x: Pos, c: Color)
    ensures BatchTargets(tg, r, done + {x}, c) == BatchTargets(tg, r, done, c) + tg(r, x, c)
  {
  }

  /** The `while target_batches` loop on a queue that holds at most one
      batch: done when the queue is empty. */
  function Resume(tg: Rule, r: Board, batches: seq<set<Pos>>, c: Color, rounds: nat): Outcome
    decreases rounds, 2
  {
    if batches == [] then Done(r) else Cascade(tg, r, batches[0], c, rounds)
  }

  /** The loop from a queue holding `batch`: one round per batch, up to
      `rounds`. */
  function Cascade(tg: Rule, r: Board, batch: set<Pos>, c: Color, rounds: nat): Outcome
    decreases rounds, 1
  {
    if rounds == 0 then OutOfRounds else Pass(tg, r, batch, c, rounds)
  }

  /** One pass of the loop on `batch` (every target first, then every
      recolouring); the next batch is queued only when it is not empty. */
  function Pass(tg: Rule, r: Board, batch: set<Pos>, c: Color, rounds: nat): Outcome
    requires rounds > 0
    decreases rounds, 0
  {
    if !(batch <= r.nodes.Keys) then KeyMissing
    else
      var next := BatchTargets(tg, r, batch, c);
      var r' := Recolor(r, batch, c);
      Resume(tg, r', if |next| == 0 then [] else [next], c, rounds - 1)
  }

  /** Every cell some batch of the cascade holds. */
  ghost function Touched(tg: Rule, r: Board, batch: set<Pos>, c: Color, rounds: nat): set<Pos>
    decreases rounds
  {
    if rounds == 0 || !(batch <= r.nodes.Keys) then {}
    else
      var next := BatchTargets(tg, r, batch, c);
      if |next| == 0 then batch else batch + Touched(tg, Recolor(r, batch, c), next, c, rounds - 1)
  }

  /** One round of the cascade, unfolded. */
  lemma CascadeRound(tg: Rule, r: Board, batch: set<Pos>, c: Color, rounds: nat)
    requires rounds > 0 && batch <= r.nodes.Keys
    ensures var next := BatchTargets(tg, r, batch, c);
            var r' := Recolor(r, batch, c);
            && Cascade(tg, r, batch, c, rounds) == (if |next| == 0 then Done(r') else Cascade(tg, r', next, c, rounds - 1))
            && Touched(tg, r, batch, c, rounds) == (if |next| == 0 then batch else batch + Touched(tg, r', next, c, rounds - 1))
  {
    var next := BatchTargets(tg, r, batch, c);
    var r' := Recolor(r, batch, c);
    assert Cascade(tg, r, batch, c, rounds) == Resume(tg, r', if |next| == 0 then [] else [next], c, rounds - 1);
  }

  /** The same round, for a caller that has computed the next batch and the
      recoloured board itself. */
  lemma CascadeNext(tg: Rule, r: Board, batch: set<Pos>, c: Color, rounds: nat, next: set<Pos>, r': Board)
    requires rounds > 0 && batch <= r.nodes.Keys
    requires next == BatchTargets(tg, r, batch, c) && r' == Recolor(r, batch, c)
    ensures |next| == 0 ==> Cascade(tg, r, batch, c, rounds) == Done(r')
    ensures |next| > 0 ==> Cascade(tg, r, batch, c, rounds) == Cascade(tg, r', next, c, rounds - 1)
  {
    CascadeRound(tg, r, batch, c, rounds);
  }

  /** A cascade that settles has recoloured exactly the cells its batches
      held, each to `c`, and nothing else: no batch undoes an earlier one. */
  lemma {:induction false} CascadeEffect(tg: Rule, r: Board, batch: set<Pos>, c: Color, rounds: nat)
    requires Cascade(tg, r, batch, c, rounds).Done?
    ensures batch <= Touched(tg, r, batch, c, rounds) <= r.nodes.Keys
    ensures Cascade(tg, r, batch, c, rounds).board == Recolor(r, Touched(tg, r, batch, c, rounds), c)
    decreases rounds
  {
    assert rounds > 0 && batch <= r.nodes.Keys;
    CascadeRound(tg, r, batch, c, rounds);
    var next := BatchTargets(tg, r, batch, c);
    var r' := Recolor(r, batch, c);
    if |next| > 0 {
      CascadeEffect(tg, r', next, c, rounds - 1);
      RecolorTwice(r, batch, Touched(tg, r', next, c, rounds - 1), c);
    }
  }

  /** A batch that targets exactly itself on a board its recolouring does
      not change comes back every round: the cascade never settles. */
  lemma {:induction false} CascadeCycles(tg: Rule, r: Board, batch: set<Pos>, c: Color, rounds: nat)
    requires batch != {} && batch <= r.nodes.Keys
    requires BatchTargets(tg, r, batch, c) == batch && Recolor(r, batch, c) == r
    ensures Cascade(tg, r, batch, c, rounds) == OutOfRounds
    decreases rounds
  {
    if rounds > 0 {
      CascadeRound(tg, r, batch, c, rounds);
      CascadeCycles(tg, r, batch, c, rounds - 1);
    }
  }

  /** Recolouring cells that already have the colour changes nothing. */
  lemma RecolorSameColour(r: Board, batch: set<Pos>, c: Color)
    requires Canonical(r) && batch <= r.nodes.Keys
    requires forall q :: q in batch ==> r.nodes[q].color == c
    ensures Recolor(r, batch, c) == r
  {
    var r' := Recolor(r, batch, c);
    assert r'.all == r.all;
    assert r'.nodes == r.nodes;
  }

  /** A Turret with one facing targets exactly the non-Blank cells ahead
      of it in that direction. */
  lemma TurretSees(r: Board, p: Pos, d: Orientation, c: Color)
    requires Canonical(r) && p in r.nodes && r.nodes[p].kind == Turret([d])
    ensures forall q :: q in KindTargets(r, p, c) <==> q in r.nodes && Ahead(p, q, d)
  {
    forall q ensures q in KindTargets(r, p, c) <==> q in r.nodes && Ahead(p, q, d) {
      TargetsCharacterised(r, p, c, q);
      if q in r.nodes && Ahead(p, q, d) {
        assert d in [d] && InBox(Box(r), q);
      }
    }
  }

  /** On a board whose only non-Blank cells are `p` and `o`, a Turret at
      `p` whose one facing points at `o` targets `o` and nothing else. */
  lemma AimedAt(r: Board, p: Pos, o: Pos, d: Orientation, c: Color)
    requires Canonical(r) && r.nodes.Keys == {p, o}
    requires r.nodes[p].kind == Turret([d]) && Ahead(p, o, d)
    ensures KindTargets(r, p, c) == {o}
  {
    TurretSees(r, p, d, c);
  }

  /** Two Turrets of one colour facing each other, alone on the board, pass
      that colour back and forth for ever: the cascade from both of them
      never settles, however many rounds it is given. */
  lemma FacingTurretsNeverSettle(r: Board, a: Pos, b: Pos, c: Color, rounds: nat)
    requires Canonical(r) && r.nodes.Keys == {a, b} && a.1 == b.1 && a.0 < b.0
    requires r.nodes[a].kind == Turret([Right]) && r.nodes[b].kind == Turret([Left])
    requires r.nodes[a].color == c && r.nodes[b].color == c
    ensures Cascade(KindTargets, r, {a, b}, c, rounds) == OutOfRounds
  {
    AimedAt(r, a, b, Right, c);
    AimedAt(r, b, a, Left, c);
    PairCycles(KindTargets, r, a, b, c, rounds);
  }

  /** The move through the two Turrets, `[a, a, b, b]`, has them as its
      interior, so `apply_to` on it never returns. */
  lemma ApplyFacingTurrets(r: Board, a: Pos, b: Pos, c: Color, rounds: nat)
    requires Canonical(r) && r.nodes.Keys == {a, b} && a.1 == b.1 && a.0 < b.0
    requires r.nodes[a].kind == Turret([Right]) && r.nodes[b].kind == Turret([Left])
    requires r.nodes[a].color == c && r.nodes[b].color == c
    ensures Apply(r, [a, a, b, b], rounds) == OutOfRounds
  {
    assert Interior([a, a, b, b]) == {a, b} by {
      assert [a, a, b, b][1] == a && [a, a, b, b][2] == b;
    }
    FacingTurretsNeverSettle(r, a, b, c, rounds);
  }

  /** Two cells of colour `c` that each target only the other make a batch
      that comes back every round. */
  lemma PairCycles(tg: Rule, r: Board, a: Pos, b: Pos, c: Color, rounds: nat)
    requires Canonical(r) && a in r.nodes && b in r.nodes
    requires r.nodes[a].color == c && r.nodes[b].color == c
    requires tg(r, a, c) == {b} && tg(r, b, c) == {a}
    ensures Cascade(tg, r, {a, b}, c, rounds) == OutOfRounds
  {
    BatchTargetsAddOne(tg, r, {a}, b, c);
    BatchTargetsAddOne(tg, r, {}, a, c);
    assert {a} + {b} == {a, b};
    RecolorSameColour(r, {a, b}, c);
    CascadeCycles(tg, r, {a, b}, c, rounds);
  }

  /** The interior of a path, `path[1:-1]`, as a set. */
  function Interior(path: Path): set<Pos>
  {
    set i | 1 <= i < |path| - 1 :: path[i]
  }

  /** `Action.apply_to`: the colour of the first cell of the path, taken on
      the input board, cascaded from the interior over a clone of it. */
  function Apply(b: Board, path: Path, rounds: nat): Outcome
    requires WF(b)
  {
    if |path| == 0 then IndexOutOfRange
    else if path[0] !in b.nodes then KeyMissing
    else Cascade(KindTargets, Clone(b), Interior(path), b.nodes[path[0]].color, rounds)
  }

  /** Some move discovery finds never settles: `apply_to` raises on it or
      loops for longer than `rounds` rounds. */
  ghost predicate Unsettled(b: Board, rounds: nat)
    requires WF(b)
  {
    exists a :: a in Discovered(b) && !Apply(b, a, rounds).Done?
  }

  /** What a settled move does: positions and kinds stay, every interior
      cell of the path takes the colour of its first cell, every other cell
      either keeps its colour or takes that one, Blank cells and cells no
      batch held are untouched, and the result is canonical. */
  lemma ApplyEffects(b: Board, path: Path, rounds: nat)
    requires WF(b) && Apply(b, path, rounds).Done?
    ensures |path| > 0 && path[0] in b.nodes
    ensures var r := Apply(b, path, rounds).board;
            var c := b.nodes[path[0]].color;
            && Canonical(r) && r.all.Keys == b.all.Keys
            && Interior(path) <= r.nodes.Keys
            && (forall q :: q in Interior(path) ==> r.nodes[q].color == c)
            && (forall q :: q in r.all ==>
                  r.all[q].position == b.all[q].position && r.all[q].kind == b.all[q].kind
                  && (r.all[q].color == b.all[q].color || r.all[q].color == c))
            && (forall q :: q in r.all && b.all[q].kind == Blank ==> r.all[q] == b.all[q])
            && (forall q :: q in r.all && q !in Touched(KindTargets, Clone(b), Interior(path), c, rounds) ==>
                  r.all[q] == b.all[q])
  {
    var c := b.nodes[path[0]].color;
    var cb := Clone(b);
    var t := Touched(KindTargets, cb, Interior(path), c, rounds);
    CascadeEffect(KindTargets, cb, Interior(path), c, rounds);
    RecolorCanonical(cb, t, c);
    RecolorKeepsCells(cb, t, c);
  }

  /** A path and its reversal have the same interior. */
  lemma ReversedInterior(a: Path)
    ensures Interior(Reversed(a)) == Interior(a)
  {
    var ra := Reversed(a);
    forall q | q in Interior(ra) ensures q in Interior(a) {
      var i :| 1 <= i < |ra| - 1 && ra[i] == q;
      ReversedAt(a, i);
      assert a[|a| - 1 - i] == q;
    }
    forall q | q in Interior(a) ensures q in Interior(ra) {
      var i :| 1 <= i < |a| - 1 && a[i] == q;
      ReversedAt(a, |a| - 1 - i);
      assert ra[|a| - 1 - i] == q;
    }
  }

  /** A move and its reversal do the same thing: both ends have the start
      colour and the interior is the same, which is why `Action.__eq__` may
      identify them. */
  lemma {:induction false} ApplyReversed(b: Board, a: Path, rounds: nat)
    requires ValidAction(b, a)
    ensures Apply(b, Reversed(a), rounds) == Apply(b, a, rounds)
  {
    ReversedAt(a, 0);
    ReversedInterior(a);
  }

  /** The first `for target in batch` loop of `apply_to`: every target of
      the batch, computed before any recolouring; `None` where the source
      raises `KeyError` on a batch cell missing from `nodes`. */
  method CollectTargets(ghost tg: Rule, r: Board, batch: set<Pos>, c: Color) returns (next: Option<set<Pos>>)
    requires Canonical(r) && Agrees(tg)
    ensures next.None? <==> !(batch <= r.nodes.Keys)
    ensures next.Some? ==> next.value == BatchTargets(tg, r, batch, c)
  {
    var acc: set<Pos> := {};
    var todo := batch;
    while todo != {}
      invariant todo <= batch && batch - todo <= r.nodes.Keys
      invariant acc == BatchTargets(tg, r, batch - todo, c)
    {
      var target :| target in todo;
      if target !in r.nodes {
        return None;
      }
      var ts := GetTargets(r, target, c);
      assert ts == KindTargets(r, target, c) == tg(r, target, c);
      BatchTargetsAddOne(tg, r, batch - todo, target, c);
      assert batch - (todo - {target}) == (batch - todo) + {target};
      acc := acc + ts;
      todo := todo - {target};
    }
    assert batch - todo == batch;
    return Some(acc);
  }

  /** The second loop: `node.color = color` for every cell of the batch. */
  method RecolorBatch(r: Board, batch: set<Pos>, c: Color) returns (r': Board)
    requires Canonical(r) && batch <= r.nodes.Keys
    ensures r' == Recolor(r, batch, c) && Canonical(r')
  {
    RecolorNone(r, c);
    r' := r;
    var todo := batch;
    while todo != {}
      invariant todo <= batch
      invariant r' == Recolor(r, batch - todo, c)
    {
      var target :| target in todo;
      RecolorNext(r, batch, todo, target, c);
      r' := SetColor(r', target, c);
      todo := todo - {target};
    }
    assert batch - todo == batch;
    RecolorCanonical(r, batch, c);
  }

  lemma BatchTargetsSameRule(tg: Rule, tg': Rule, r: Board, batch: set<Pos>, c: Color)
    requires forall r, p, c :: tg(r, p, c) == tg'(r, p, c)
    ensures BatchTargets(tg, r, batch, c) == BatchTargets(tg', r, batch, c)
  {
    forall x | x in batch ensures tg(r, x, c) == tg'(r, x, c) {
    }
  }

  /** Two rules that give the same targets everywhere give the same cascade. */
  lemma {:induction false} CascadeSameRule(tg: Rule, tg': Rule, r: Board, batch: set<Pos>, c: Color, rounds: nat)
    requires forall r, p, c :: tg(r, p, c) == tg'(r, p, c)
    ensures Cascade(tg, r, batch, c, rounds) == Cascade(tg', r, batch, c, rounds)
    decreases rounds
  {
    if rounds == 0 {
    } else if !(batch <= r.nodes.Keys) {
      assert Pass(tg, r, batch, c, rounds) == KeyMissing == Pass(tg', r, batch, c, rounds);
    } else {
      var next, r' := BatchTargets(tg, r, batch, c), Recolor(r, batch, c);
      BatchTargetsSameRule(tg, tg', r, batch, c);
      CascadeNext(tg, r, batch, c, rounds, next, r');
      CascadeNext(tg', r, batch, c, rounds, next, r');
      if |next| > 0 {
        CascadeSameRule(tg, tg', r', next, c, rounds - 1);
      }
    }
  }

  /** The cascade under any rule that agrees with the dispatch on kinds. */
  lemma CascadeAgrees(tg: Rule, r: Board, batch: set<Pos>, c: Color, rounds: nat)
    requires Agrees(tg)
    ensures Cascade(tg, r, batch, c, rounds) == Cascade(KindTargets, r, batch, c, rounds)
  {
    forall r, p, c ensures tg(r, p, c) == KindTargets(r, p, c) {
    }
    CascadeSameRule(tg, KindTargets, r, batch, c, rounds);
  }

  /** One pass of the `while target_batches` loop on the batch `batch`:
      its targets, then its recolouring, related to one round of the
      cascade; `None` where the source raises `KeyError`. */
  method Round(ghost tg: Rule, r: Board, batch: set<Pos>, c: Color, ghost rounds: nat) returns (next: Option<set<Pos>>, r': Board)
    requires Canonical(r) && Agrees(tg) && rounds > 0
    ensures Canonical(r')
    ensures next.None? ==> Cascade(tg, r, batch, c, rounds) == KeyMissing
    ensures next.Some? && |next.value| == 0 ==> Cascade(tg, r, batch, c, rounds) == Done(r')
    ensures next.Some? && |next.value| > 0 ==>
              Cascade(tg, r, batch, c, rounds) == Cascade(tg, r', next.value, c, rounds - 1)
  {
    next := CollectTargets(tg, r, batch, c);
    if next.None? {
      return next, r;
    }
    r' := RecolorBatch(r, batch, c);
    CascadeNext(tg, r, batch, c, rounds, next.value, r');
  }

  /** `Action.apply_to` as the source runs it: a queue of batches; per
      batch, every target first, then every recolouring. */
  method ApplyTo(b: Board, path: Path, rounds: nat) returns (o: Outcome)
    requires WF(b)
    ensures o == Apply(b, path, rounds)
  {
    if |path| == 0 {
      return IndexOutOfRange;
    }
    if path[0] !in b.nodes {
      return KeyMissing;
    }
    var color := b.nodes[path[0]].color;
    var result := Clone(b);
    var batches := [Interior(path)];
    var fuel := rounds;
    assert Agrees(KindTargets);
    ghost var tg: Rule :| Agrees(tg);
    CascadeAgrees(tg, result, batches[0], color, fuel);
    ghost var goal := Resume(tg, result, batches, color, fuel);
    while batches != []
      invariant Canonical(result) && |batches| <= 1
      invariant Resume(tg, result, batches, color, fuel) == goal
      decreases fuel, |batches|
    {
      if fuel == 0 {
        return OutOfRounds;
      }
      var batch := batches[0];
      batches := batches[1..];
      assert |batches| == 0;
      var next, r' := Round(tg, result, batch, color, fuel);
      if next.None? {
        return KeyMissing;
      }
      result := r';
      fuel := fuel - 1;
      if |next.value| > 0 {
        batches := batches + [next.value];
        assert batches == [next.value];
      }
    }
    o := Done(result);
  }
}
