/** Move discovery: the moves (`Action`s) available on a board, found by
    extending a path from each cell through cells of one "middle" colour
    until a cell of the start colour closes it. */
module Discovery {
  import opened Types
  import opened Boards
  import opened Geometry

  /** The positions of an `Action`, first to last. */
  type Path = seq<Pos>

  // ---- Action: extend, equality and hashing ----

  /** `Action.extend`: a new action whose path is this one followed by `ext`. */
  function Extend(path: Path, ext: seq<Pos>): (r: Path)
    ensures |r| == |path| + |ext|
    ensures r[..|path|] == path && r[|path|..] == ext
  {
    path + ext
  }

  function Reversed(s: Path): (r: Path)
    ensures |r| == |s|
  {
    if s == [] then [] else Reversed(s[1..]) + [s[0]]
  }

  lemma {:induction false} ReversedAt(s: Path, k: nat)
    requires k < |s|
    ensures Reversed(s)[k] == s[|s| - 1 - k]
  {
    if k < |s| - 1 {
      ReversedAt(s[1..], k);
    }
  }

  lemma ReversedTwice(s: Path)
    ensures Reversed(Reversed(s)) == s
  {
    forall k | 0 <= k < |s| ensures Reversed(Reversed(s))[k] == s[k] {
      ReversedAt(Reversed(s), k);
      ReversedAt(s, |s| - 1 - k);
    }
  }

  /** `Action.__eq__`: the same path read either way. */
  predicate ActionEq(p: Path, q: Path)
  {
    p == q || p == Reversed(q)
  }

  /** `Action.__hash__` hashes the path read from its smaller endpoint. */
  function HashKey(p: Path): Path
    requires |p| > 0
  {
    if PosLess(p[|p| - 1], p[0]) then Reversed(p) else p
  }

  /** Action equality is an equivalence: a path equals itself and equality
      reads the same both ways. */
  lemma ActionEqSymmetric(p: Path, q: Path)
    ensures ActionEq(p, p)
    ensures ActionEq(p, q) <==> ActionEq(q, p)
  {
    ReversedTwice(p);
    ReversedTwice(q);
  }

  lemma ActionEqTransitive(p: Path, q: Path, r: Path)
    requires ActionEq(p, q) && ActionEq(q, r)
    ensures ActionEq(p, r)
  {
    ReversedTwice(r);
  }

  /** A path and its reversal hash alike whenever the endpoints differ, so
      the hash agrees with equality on every action discovery produces. */
  lemma HashAgreesWithEq(p: Path, q: Path)
    requires |p| > 0 && p[0] != p[|p| - 1]
    requires ActionEq(p, q)
    ensures |q| > 0 && HashKey(p) == HashKey(q)
  {
    if p != q {
      ReversedTwice(q);
      ReversedAt(q, 0);
      ReversedAt(q, |q| - 1);
    }
  }

  /** When the endpoints coincide the hash tells a path from its reversal
      although they are equal; discovery never builds such a path. */
  lemma HashDiffersOnClosedPath()
    ensures var p := [(0, 0), (1, 0), (2, 0), (0, 0)];
            ActionEq(p, Reversed(p)) && HashKey(p) != HashKey(Reversed(p))
  {
    var p := [(0, 0), (1, 0), (2, 0), (0, 0)];
    ReversedTwice(p);
    ReversedAt(p, 1);
  }

  // ---- explore ----

  predicate Distinct(s: Path)
  {
    forall i, j :: 0 <= i < j < |s| ==> s[i] != s[j]
  }

  /** The neighbours `explore` continues to from `node`: entered along `dir`,
      not yet on the path, and of the middle or the start colour. */
  function Candidates(b: Board, node: Pos, dir: Axis, visited: set<Pos>, startColor: Color, middleColor: Color): (r: set<Pos>)
    requires WF(b) && node in b.nodes
    ensures forall n :: n in r ==> n in b.nodes && n !in visited
  {
    var ns := Neighbors(b, b.nodes[node], Some(dir));
    set n | n in ns && n !in visited && b.nodes[n].color in {middleColor, startColor}
  }

  /** `explore`: the paths that close the move, from the current path ending
      at `node`; each recursive call owns a fresh visited set. */
  function Explore(b: Board, startColor: Color, middleColor: Color, dir: Axis,
                   visited: set<Pos>, node: Pos, path: Path): set<Path>
    requires WF(b) && node in b.nodes && visited <= b.nodes.Keys
    decreases b.nodes.Keys - visited
  {
    if b.nodes[node].color == startColor then {path}
    else
      set n, a | n in Candidates(b, node, dir, visited, startColor, middleColor)
                 && a in Explore(b, startColor, middleColor, GetDirection(node, n),
                                 visited + {n}, n, Extend(path, [n]))
        :: a
  }

  /** The first neighbours a move can start with from `s`: those found with
      no inbound axis whose colour differs from `s`'s. */
  function Seeds(b: Board, s: Pos): (r: set<Pos>)
    requires WF(b) && s in b.nodes
    ensures forall f :: f in r ==> f in b.nodes && f != s
  {
    set f | f in Neighbors(b, b.nodes[s], None) && b.nodes[f].color != b.nodes[s].color
  }

  /** The paths `explore` returns for the seed `s`, `f`. */
  function ExploreSeed(b: Board, s: Pos, f: Pos): set<Path>
    requires WF(b) && s in b.nodes && f in Seeds(b, s)
  {
    Explore(b, b.nodes[s].color, b.nodes[f].color, GetDirection(s, f), {s, f}, f, [s, f])
  }

  /** Every path discovered on the board, before deduplication by action
      equality. */
  function Discovered(b: Board): set<Path>
    requires WF(b)
  {
    set s, f, a | s in b.nodes && f in Seeds(b, s) && a in ExploreSeed(b, s, f) :: a
  }

  // ---- the shape of a move ----

  /** Every cell of `s` is a placed non-Blank cell. */
  predicate AllPlaced(b: Board, s: Path)
  {
    forall i :: 0 <= i < |s| ==> s[i] in b.nodes
  }

  /** Every interior cell of `s` has colour `mc`. */
  predicate Coloured(b: Board, s: Path, mc: Color)
    requires AllPlaced(b, s)
  {
    forall i :: 1 <= i < |s| - 1 ==> b.nodes[s[i]].color == mc
  }

  /** Each cell of `s` is a neighbour of the one before: the second found
      with no inbound axis, every later one entered along the axis of the
      step before it. */
  ghost predicate Linked(b: Board, s: Path)
    requires WF(b) && |s| >= 2 && AllPlaced(b, s)
  {
    && s[1] in Neighbors(b, b.nodes[s[0]], None)
    && forall i :: 1 <= i < |s| - 1 ==>
         s[i + 1] in Neighbors(b, b.nodes[s[i]], Some(GetDirection(s[i - 1], s[i])))
  }

  /** The properties every discovered move has: at least three distinct
      cells; first and last of the start colour; every interior cell of one
      middle colour that differs from it; and each cell a neighbour of the
      one before, entered along the axis of the step before that. */
  ghost predicate ValidAction(b: Board, a: Path)
  {
    && WF(b) && |a| >= 3 && Distinct(a) && AllPlaced(b, a)
    && b.nodes[a[1]].color != b.nodes[a[0]].color
    && b.nodes[a[|a| - 1]].color == b.nodes[a[0]].color
    && Coloured(b, a, b.nodes[a[1]].color)
    && Linked(b, a)
  }

  /** What holds of the path at every call of `explore`. */
  ghost predicate PartialPath(b: Board, path: Path, startColor: Color, middleColor: Color)
  {
    && WF(b) && |path| >= 2 && Distinct(path) && AllPlaced(b, path)
    && b.nodes[path[0]].color == startColor
    && b.nodes[path[1]].color == middleColor && middleColor != startColor
    && Coloured(b, path, middleColor)
    && b.nodes[path[|path| - 1]].color in {middleColor, startColor}
    && Linked(b, path)
  }

  function Elems(path: Path): set<Pos>
  {
    set x | x in path
  }

  /** A partial path whose last cell has the start colour is a move. */
  lemma ClosedPathIsMove(b: Board, path: Path, startColor: Color, middleColor: Color)
    requires PartialPath(b, path, startColor, middleColor)
    requires b.nodes[path[|path| - 1]].color == startColor
    ensures ValidAction(b, path)
  {
  }

  lemma AppendDistinct(s: Path, n: Pos)
    requires Distinct(s) && n !in s
    ensures Distinct(s + [n])
  {
    var s' := s + [n];
    forall i, j | 0 <= i < j < |s'| ensures s'[i] != s'[j] {
      assert s'[i] == s[i] && s[i] in s;
      if j < |s| {
        assert s'[j] == s[j];
      }
    }
  }

  lemma AppendPlaced(b: Board, s: Path, n: Pos)
    requires AllPlaced(b, s) && n in b.nodes
    ensures AllPlaced(b, s + [n])
  {
    var s' := s + [n];
    forall i | 0 <= i < |s'| ensures s'[i] in b.nodes {
      if i < |s| {
        assert s'[i] == s[i];
      }
    }
  }

  lemma AppendColoured(b: Board, s: Path, n: Pos, mc: Color)
    requires AllPlaced(b, s) && n in b.nodes && |s| >= 2
    requires Coloured(b, s, mc) && b.nodes[s[|s| - 1]].color == mc
    ensures AllPlaced(b, s + [n]) && Coloured(b, s + [n], mc)
  {
    AppendPlaced(b, s, n);
    var s' := s + [n];
    forall i | 1 <= i < |s'| - 1 ensures b.nodes[s'[i]].color == mc {
      assert s'[i] == s[i];
    }
  }

  /** Appending a neighbour of the last cell, entered along the last step's
      axis, keeps the path linked. */
  lemma AppendLinked(b: Board, s: Path, n: Pos)
    requires WF(b) && |s| >= 2 && AllPlaced(b, s) && Linked(b, s) && n in b.nodes
    requires n in Neighbors(b, b.nodes[s[|s| - 1]], Some(GetDirection(s[|s| - 2], s[|s| - 1])))
    ensures AllPlaced(b, s + [n]) && Linked(b, s + [n])
  {
    AppendPlaced(b, s, n);
    var s' := s + [n];
    assert s'[0] == s[0] && s'[1] == s[1];
    forall i | 1 <= i < |s'| - 1
      ensures s'[i + 1] in Neighbors(b, b.nodes[s'[i]], Some(GetDirection(s'[i - 1], s'[i])))
    {
      assert s'[i] == s[i] && s'[i - 1] == s[i - 1];
      if i < |s| - 1 {
        assert s'[i + 1] == s[i + 1];
      }
    }
  }

  lemma AppendElems(s: Path, n: Pos)
    ensures Elems(s + [n]) == Elems(s) + {n}
  {
    assert forall x :: x in s + [n] <==> x in s || x == n;
  }

  /** `explore`'s step keeps a partial path partial. */
  lemma ExtendPartialPath(b: Board, path: Path, startColor: Color, middleColor: Color, n: Pos)
    requires PartialPath(b, path, startColor, middleColor)
    requires b.nodes[path[|path| - 1]].color != startColor
    requires n in Candidates(b, path[|path| - 1], GetDirection(path[|path| - 2], path[|path| - 1]),
                             Elems(path), startColor, middleColor)
    ensures var path' := Extend(path, [n]);
            && PartialPath(b, path', startColor, middleColor)
            && Elems(path') == Elems(path) + {n}
            && path'[|path'| - 2] == path[|path| - 1] && path'[|path'| - 1] == n
            && path'[0] == path[0] && path'[1] == path[1]
  {
    var node := path[|path| - 1];
    var dir := GetDirection(path[|path| - 2], node);
    assert n in Neighbors(b, b.nodes[node], Some(dir)) && n !in Elems(path)
           && b.nodes[n].color in {middleColor, startColor};
    AppendDistinct(path, n);
    AppendColoured(b, path, n, middleColor);
    AppendLinked(b, path, n);
    AppendElems(path, n);
    var path' := path + [n];
    assert path'[0] == path[0] && path'[1] == path[1] && path'[|path'| - 1] == n;
  }

  /** The arguments of a call of `explore`: a partial path, its last cell,
      its cells as the visited set and the axis of its last step. */
  ghost predicate Exploring(b: Board, startColor: Color, middleColor: Color, dir: Axis,
                            visited: set<Pos>, node: Pos, path: Path)
  {
    && PartialPath(b, path, startColor, middleColor)
    && node == path[|path| - 1] && visited == Elems(path)
    && dir == GetDirection(path[|path| - 2], path[|path| - 1])
    && visited <= b.nodes.Keys
  }

  /** The arguments of every recursive call of `explore` are again such
      arguments, with the same first two cells. */
  lemma ExploreStep(b: Board, startColor: Color, middleColor: Color, dir: Axis,
                    visited: set<Pos>, node: Pos, path: Path, n: Pos)
    requires Exploring(b, startColor, middleColor, dir, visited, node, path)
    requires b.nodes[node].color != startColor
    requires n in Candidates(b, node, dir, visited, startColor, middleColor)
    ensures Exploring(b, startColor, middleColor, GetDirection(node, n), visited + {n}, n, Extend(path, [n]))
    ensures Extend(path, [n])[0] == path[0] && Extend(path, [n])[1] == path[1]
    ensures b.nodes.Keys - (visited + {n}) < b.nodes.Keys - visited
  {
    ExtendPartialPath(b, path, startColor, middleColor, n);
  }

  /** Every path `explore` returns from a partial path is a valid move. */
  lemma {:induction false} ExploreSound(b: Board, startColor: Color, middleColor: Color, dir: Axis,
                                        visited: set<Pos>, node: Pos, path: Path, a: Path)
    requires Exploring(b, startColor, middleColor, dir, visited, node, path)
    requires a in Explore(b, startColor, middleColor, dir, visited, node, path)
    ensures ValidAction(b, a) && a[0] == path[0] && a[1] == path[1]
    decreases b.nodes.Keys - visited, 1
  {
    if b.nodes[node].color == startColor {
      assert a == path;
      ClosedPathIsMove(b, path, startColor, middleColor);
    } else {
      var n :| n in Candidates(b, node, dir, visited, startColor, middleColor)
               && a in Explore(b, startColor, middleColor, GetDirection(node, n),
                               visited + {n}, n, Extend(path, [n]));
      ExploreSoundVia(b, startColor, middleColor, dir, visited, node, path, n, a);
    }
  }

  /** `ExploreSound` for a path found through the candidate `n`. */
  lemma {:induction false} ExploreSoundVia(b: Board, startColor: Color, middleColor: Color, dir: Axis,
                                           visited: set<Pos>, node: Pos, path: Path, n: Pos, a: Path)
    requires Exploring(b, startColor, middleColor, dir, visited, node, path)
    requires b.nodes[node].color != startColor
    requires n in Candidates(b, node, dir, visited, startColor, middleColor)
    requires a in Explore(b, startColor, middleColor, GetDirection(node, n), visited + {n}, n, Extend(path, [n]))
    ensures ValidAction(b, a) && a[0] == path[0] && a[1] == path[1]
    decreases b.nodes.Keys - visited, 0
  {
    ExploreStep(b, startColor, middleColor, dir, visited, node, path, n);
    ExploreSound(b, startColor, middleColor, GetDirection(node, n), visited + {n}, n, Extend(path, [n]), a);
  }

  /** The cell after a proper prefix of a valid move is one `explore`
      may continue to, from an interior cell. */
  lemma NextIsCandidate(b: Board, a: Path, k: nat)
    requires ValidAction(b, a) && 2 <= k < |a|
    ensures b.nodes[a[k - 1]].color != b.nodes[a[0]].color
    ensures Elems(a[..k]) <= b.nodes.Keys
    ensures a[k] in Candidates(b, a[k - 1], GetDirection(a[k - 2], a[k - 1]), Elems(a[..k]),
                               b.nodes[a[0]].color, b.nodes[a[1]].color)
  {
    var sc, mc := b.nodes[a[0]].color, b.nodes[a[1]].color;
    var path := a[..k];
    assert forall i :: 0 <= i < k ==> path[i] == a[i];
    var node, n := a[k - 1], a[k];
    var dir := GetDirection(a[k - 2], a[k - 1]);
    assert n !in Elems(path) by {
      forall i | 0 <= i < k ensures path[i] != n {
        assert a[i] != a[k];
      }
    }
    assert n in Neighbors(b, b.nodes[node], Some(dir)) by {
      assert a[(k - 1) + 1] in Neighbors(b, b.nodes[a[k - 1]], Some(GetDirection(a[(k - 1) - 1], a[k - 1])));
    }
    assert b.nodes[n].color in {mc, sc} by {
      if k < |a| - 1 {
        assert b.nodes[a[k]].color == mc;
      }
    }
  }

  lemma PrefixStep(a: Path, k: nat)
    requires 2 <= k < |a|
    ensures a[..k + 1] == Extend(a[..k], [a[k]])
    ensures Elems(a[..k + 1]) == Elems(a[..k]) + {a[k]}
    ensures a[..k][k - 1] == a[k - 1]
  {
    assert a[..k + 1] == a[..k] + [a[k]];
    AppendElems(a[..k], a[k]);
  }

  /** Every valid move is found from its own seed: `explore` enumerates all
      of them, not only some. */
  lemma {:induction false} ExploreComplete(b: Board, a: Path, k: nat)
    requires ValidAction(b, a) && 2 <= k <= |a|
    ensures Elems(a[..k]) <= b.nodes.Keys
    ensures a in Explore(b, b.nodes[a[0]].color, b.nodes[a[1]].color,
                         GetDirection(a[k - 2], a[k - 1]), Elems(a[..k]), a[k - 1], a[..k])
    decreases |a| - k
  {
    if k == |a| {
      assert a[..k] == a;
      assert Elems(a) <= b.nodes.Keys;
    } else {
      NextIsCandidate(b, a, k);
      PrefixStep(a, k);
      ExploreComplete(b, a, k + 1);
    }
  }

  /** Every discovered path is a valid move. */
  lemma DiscoveredIsValid(b: Board, a: Path)
    requires WF(b) && a in Discovered(b)
    ensures ValidAction(b, a)
  {
    var s, f :| s in b.nodes && f in Seeds(b, s) && a in ExploreSeed(b, s, f);
    SeedPath(b, s, f);
    ExploreSound(b, b.nodes[s].color, b.nodes[f].color, GetDirection(s, f), {s, f}, f, [s, f], a);
  }

  /** The two-cell path of a seed is a partial path. */
  lemma SeedPath(b: Board, s: Pos, f: Pos)
    requires WF(b) && s in b.nodes && f in Seeds(b, s)
    ensures Exploring(b, b.nodes[s].color, b.nodes[f].color, GetDirection(s, f), {s, f}, f, [s, f])
  {
    SeedPartial(b, s, f);
    assert Elems([s, f]) == {s, f};
  }

  lemma SeedPartial(b: Board, s: Pos, f: Pos)
    requires WF(b) && s in b.nodes && f in b.nodes && f != s
    requires b.nodes[f].color != b.nodes[s].color && f in Neighbors(b, b.nodes[s], None)
    ensures PartialPath(b, [s, f], b.nodes[s].color, b.nodes[f].color)
  {
    assert AllPlaced(b, [s, f]);
  }

  /** Every valid move is discovered from its first two cells. */
  lemma ValidIsDiscovered(b: Board, a: Path)
    requires ValidAction(b, a)
    ensures a in Discovered(b)
  {
    var s, f := a[0], a[1];
    assert f in Seeds(b, s);
    ExploreComplete(b, a, 2);
    assert a[..2] == [s, f];
    assert Elems(a[..2]) == {s, f};
    assert a in ExploreSeed(b, s, f);
  }

  /** Discovery finds exactly the valid moves. */
  lemma DiscoveredIffValid(b: Board, a: Path)
    requires WF(b)
    ensures a in Discovered(b) <==> ValidAction(b, a)
  {
    if a in Discovered(b) {
      DiscoveredIsValid(b, a);
    }
    if ValidAction(b, a) {
      ValidIsDiscovered(b, a);
    }
  }
}
