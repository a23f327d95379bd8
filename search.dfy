/** The depth-first search for a sequence of moves that leaves one colour:
    the deduplicated move list of a board, the candidate order, and the
    backtracking search with its soundness and completeness. */
module Search {
  import opened Types
  import opened Boards
  import opened Geometry
  import opened Discovery
  import opened Effects

  // ---- Map.get_actions ----

  /** Every path of `s` is in `acts`, as it is or reversed. */
  predicate Covers(acts: set<Path>, s: set<Path>)
  {
    forall a :: a in s ==> a in acts || Reversed(a) in acts
  }

  /** No two members of `acts` are equal as actions. */
  predicate NoRepeats(acts: set<Path>)
  {
    forall a, a' :: a in acts && a' in acts && ActionEq(a, a') ==> a == a'
  }

  /** `set.add` on actions: `x` joins unless an equal action is present. */
  method AddAction(acts: set<Path>, x: Path) returns (acts': set<Path>)
    requires NoRepeats(acts)
    ensures acts <= acts' <= acts + {x}
    ensures x in acts' || Reversed(x) in acts'
    ensures NoRepeats(acts')
  {
    if x in acts || Reversed(x) in acts {
      acts' := acts;
    } else {
      acts' := acts + {x};
      forall a, a' | a in acts' && a' in acts' && ActionEq(a, a') ensures a == a' {
        ReversedTwice(a);
        ReversedTwice(a');
      }
    }
  }

  /** `actions.update(a)`: every path of `xs` is added unless an equal
      action is already there. */
  method AddAll(acts: set<Path>, xs: set<Path>) returns (acts': set<Path>)
    requires NoRepeats(acts)
    ensures acts <= acts' <= acts + xs
    ensures Covers(acts', xs) && NoRepeats(acts')
  {
    acts' := acts;
    var todo := xs;
    while todo != {}
      invariant todo <= xs && acts <= acts' <= acts + xs
      invariant Covers(acts', xs - todo) && NoRepeats(acts')
    {
      var x :| x in todo;
      acts' := AddAction(acts', x);
      todo := todo - {x};
    }
  }

  /** One more seed of `s` has been explored into `seen`. */
  lemma SeedsDone(b: Board, s: Pos, firsts: set<Pos>, fs: set<Pos>, f: Pos, seen: set<Path>)
    requires WF(b) && s in b.nodes && firsts == Seeds(b, s) && f in fs && fs <= firsts
    requires forall g :: g in firsts && g !in fs ==> ExploreSeed(b, s, g) <= seen
    ensures forall g :: g in firsts && g !in fs - {f} ==> ExploreSeed(b, s, g) <= seen + ExploreSeed(b, s, f)
  {
  }

  /** What a smaller set covers, a larger one covers too. */
  lemma CoversMore(acts: set<Path>, acts': set<Path>, s: set<Path>, t: set<Path>)
    requires acts <= acts' && Covers(acts, s) && Covers(acts', t)
    ensures Covers(acts', s + t)
  {
  }

  /** The paths found from one seed are among the discovered paths. */
  lemma SeedFound(b: Board, s: Pos, f: Pos)
    requires WF(b) && s in b.nodes && f in Seeds(b, s)
    ensures ExploreSeed(b, s, f) <= Discovered(b)
  {
  }

  /** `Map.get_actions`: from every non-Blank cell and every differently
      coloured first neighbour, `explore`, gathering the paths into a set
      of actions. Every discovered path is kept, as it is or reversed, no
      action is kept twice, and nothing else is kept. */
  method GetActions(b: Board) returns (acts: set<Path>)
    requires WF(b)
    ensures acts <= Discovered(b)
    ensures Covers(acts, Discovered(b)) && NoRepeats(acts)
  {
    acts := {};
    ghost var seen: set<Path> := {};
    var todo := b.nodes.Keys;
    while todo != {}
      invariant todo <= b.nodes.Keys
      invariant acts <= seen <= Discovered(b)
      invariant Covers(acts, seen) && NoRepeats(acts)
      invariant forall s, f :: s in b.nodes && s !in todo && f in Seeds(b, s) ==> ExploreSeed(b, s, f) <= seen
    {
      var s :| s in todo;
      acts, seen := GatherFrom(b, s, acts, seen);
      todo := todo - {s};
    }
    AllSeedsSeen(b, seen);
  }

  /** What every seed finds is all that is discovered. */
  lemma AllSeedsSeen(b: Board, seen: set<Path>)
    requires WF(b)
    requires forall s, f :: s in b.nodes && f in Seeds(b, s) ==> ExploreSeed(b, s, f) <= seen
    ensures Discovered(b) <= seen
  {
    forall a | a in Discovered(b) ensures a in seen {
      var s, f :| s in b.nodes && f in Seeds(b, s) && a in ExploreSeed(b, s, f);
    }
  }

  /** The inner loop of `get_actions`: `explore` from `s` and each of its
      first neighbours, `actions.update` with what it finds. */
  method GatherFrom(b: Board, s: Pos, acts: set<Path>, ghost seen: set<Path>)
    returns (acts': set<Path>, ghost seen': set<Path>)
    requires WF(b) && s in b.nodes
    requires acts <= seen <= Discovered(b) && Covers(acts, seen) && NoRepeats(acts)
    ensures seen <= seen' && acts' <= seen' <= Discovered(b) && Covers(acts', seen') && NoRepeats(acts')
    ensures forall f :: f in Seeds(b, s) ==> ExploreSeed(b, s, f) <= seen'
  {
    acts', seen' := acts, seen;
    var firsts := Seeds(b, s);
    var fs := firsts;
    while fs != {}
      invariant fs <= firsts
      invariant seen <= seen' && acts' <= seen' <= Discovered(b)
      invariant Covers(acts', seen') && NoRepeats(acts')
      invariant forall f :: f in firsts && f !in fs ==> ExploreSeed(b, s, f) <= seen'
    {
      var f :| f in fs;
      var found := ExploreSeed(b, s, f);
      SeedFound(b, s, f);
      SeedsDone(b, s, firsts, fs, f, seen');
      ghost var before := acts';
      acts' := AddAll(acts', found);
      CoversMore(before, acts', seen', found);
      seen' := seen' + found;
      fs := fs - {f};
    }
  }

  // ---- the candidate order ----

  /** A move and the board it leads to: an item of `action_neighbor_mapping`. */
  datatype Candidate = Candidate(action: Path, next: Board)

  /** The sort key `(neighbor.entrophy, len(action.path))`, compared as
      tuples are: lexicographically. */
  predicate Before(x: Candidate, y: Candidate)
  {
    var (dx, px) := Entropy(x.next);
    var (dy, py) := Entropy(y.next);
    dx < dy || (dx == dy && (px < py || (px == py && |x.action| <= |y.action|)))
  }

  lemma BeforeTotal(x: Candidate, y: Candidate)
    ensures Before(x, y) || Before(y, x)
  {
  }

  lemma BeforeTransitive(x: Candidate, y: Candidate, z: Candidate)
    requires Before(x, y) && Before(y, z)
    ensures Before(x, z)
  {
  }

  predicate SortedByKey(s: seq<Candidate>)
  {
    forall i, j :: 0 <= i < j < |s| ==> Before(s[i], s[j])
  }

  /** `x` placed after the items of `s` that are not after it. */
  function Insert(x: Candidate, s: seq<Candidate>): seq<Candidate>
  {
    if s == [] || !Before(s[0], x) then [x] + s
    else [s[0]] + Insert(x, s[1..])
  }

  /** `sorted(..., key=...)`: an insertion sort by the key; items with equal
      keys may come in any order, as in the source, where they come in set
      order. */
  function SortByKey(items: seq<Candidate>): seq<Candidate>
  {
    if items == [] then [] else Insert(items[0], SortByKey(items[1..]))
  }

  lemma {:induction false} InsertPermutes(x: Candidate, s: seq<Candidate>)
    ensures multiset(Insert(x, s)) == multiset(s) + multiset{x}
  {
    if s != [] && Before(s[0], x) {
      InsertPermutes(x, s[1..]);
      assert s == [s[0]] + s[1..];
    }
  }

  lemma {:induction false} InsertSorted(x: Candidate, s: seq<Candidate>)
    requires SortedByKey(s)
    ensures SortedByKey(Insert(x, s))
  {
    if s == [] || !Before(s[0], x) {
      if s != [] {
        BeforeTotal(s[0], x);
        forall j | 0 <= j < |s| ensures Before(x, s[j]) {
          if j > 0 {
            BeforeTransitive(x, s[0], s[j]);
          }
        }
      }
    } else {
      var rest := Insert(x, s[1..]);
      InsertSorted(x, s[1..]);
      InsertPermutes(x, s[1..]);
      forall j | 0 <= j < |rest| ensures Before(s[0], rest[j]) {
        assert rest[j] in multiset(rest);
        if rest[j] != x {
          assert rest[j] in multiset(s[1..]);
          var k :| 0 <= k < |s[1..]| && s[1..][k] == rest[j];
          assert s[k + 1] == rest[j];
        }
      }
    }
  }

  /** The sorted list holds exactly the items, in key order. */
  lemma {:induction false} SortByKeyCorrect(items: seq<Candidate>)
    ensures SortedByKey(SortByKey(items))
    ensures multiset(SortByKey(items)) == multiset(items)
  {
    if items != [] {
      SortByKeyCorrect(items[1..]);
      InsertSorted(items[0], SortByKey(items[1..]));
      InsertPermutes(items[0], SortByKey(items[1..]));
      assert items == [items[0]] + items[1..];
    }
  }

  // ---- solve ----

  /** `Map.__eq__` compares hashes of the position-sorted cells, so the
      visited set is modelled as a set of board keys. */
  type BoardKey = map<Pos, (Tag, Color)>

  /** What one move of the search does: a move `get_actions` finds on `b`
      whose cascade settles leads to the board it settles into. */
  ghost function Move(b: Board, a: Path, rounds: nat): (r: Option<Board>)
  {
    if WF(b) && a in Discovered(b) && Apply(b, a, rounds).Done? then Some(Apply(b, a, rounds).board) else None
  }

  /** The proofs about runs hold for any move rule; `Follows` ties one to
      `Move`, and says so only where a `Move` term is in sight. */
  type MoveRule = (Board, Path, nat) -> Option<Board>

  ghost predicate Follows(mv: MoveRule)
  {
    forall b, a, rounds {:trigger Move(b, a, rounds)} :: mv(b, a, rounds) == Move(b, a, rounds)
  }

  /** `steps` wins from `b`: each move leads somewhere under `mv`, the
      board it leads to is none seen before on the way (nor in `visited`),
      and the last board is solved. */
  ghost predicate Wins(mv: MoveRule, b: Board, steps: seq<Path>, rounds: nat, visited: set<BoardKey>)
    decreases |steps|
  {
    if steps == [] then IsSolved(b)
    else
      && mv(b, steps[0], rounds).Some?
      && var next := mv(b, steps[0], rounds).value;
         && Key(next) !in visited + {Key(b)}
         && Wins(mv, next, steps[1..], rounds, visited + {Key(b)})
  }

  /** The boards a sequence of moves passes through, `b` first. */
  ghost function Trace(mv: MoveRule, b: Board, steps: seq<Path>, rounds: nat): seq<Board>
    decreases |steps|
  {
    if steps == [] || mv(b, steps[0], rounds).None? then [b]
    else [b] + Trace(mv, mv(b, steps[0], rounds).value, steps[1..], rounds)
  }

  /** A winning sequence passes through pairwise different boards, none of
      them after the first in `visited`; each move is one `get_actions`
      finds on the board before it and settles into the board after it; the
      last board is solved. */
  lemma WinsTrace(b: Board, steps: seq<Path>, rounds: nat, visited: set<BoardKey>)
    requires Wins(Move, b, steps, rounds, visited)
    ensures var t := Trace(Move, b, steps, rounds);
            && |t| == |steps| + 1 && t[0] == b && IsSolved(t[|steps|])
            && (forall i :: 0 <= i < |steps| ==>
                  WF(t[i]) && steps[i] in Discovered(t[i]) && Apply(t[i], steps[i], rounds) == Done(t[i + 1]))
            && (forall i :: 1 <= i < |t| ==> Key(t[i]) !in visited)
            && (forall i, j :: 0 <= i < j < |t| ==> Key(t[i]) != Key(t[j]))
  {
    TraceSteps(Move, b, steps, rounds, visited);
    TraceFresh(Move, b, steps, rounds, visited);
    var t := Trace(Move, b, steps, rounds);
    forall i | 0 <= i < |steps|
      ensures WF(t[i]) && steps[i] in Discovered(t[i]) && Apply(t[i], steps[i], rounds) == Done(t[i + 1])
    {
      assert Move(t[i], steps[i], rounds) == Some(t[i + 1]);
    }
  }

  lemma {:induction false} TraceSteps(mv: MoveRule, b: Board, steps: seq<Path>, rounds: nat, visited: set<BoardKey>)
    requires Wins(mv, b, steps, rounds, visited)
    ensures var t := Trace(mv, b, steps, rounds);
            && |t| == |steps| + 1 && t[0] == b && IsSolved(t[|steps|])
            && (forall i :: 0 <= i < |steps| ==> mv(t[i], steps[i], rounds) == Some(t[i + 1]))
    decreases |steps|
  {
    if steps != [] {
      var next := mv(b, steps[0], rounds).value;
      TraceSteps(mv, next, steps[1..], rounds, visited + {Key(b)});
      var t := Trace(mv, b, steps, rounds);
      var t' := Trace(mv, next, steps[1..], rounds);
      assert t == [b] + t';
      forall i | 0 <= i < |steps| ensures mv(t[i], steps[i], rounds) == Some(t[i + 1]) {
        if i > 0 {
          assert steps[i] == steps[1..][i - 1];
        }
      }
    }
  }

  lemma {:induction false} TraceFresh(mv: MoveRule, b: Board, steps: seq<Path>, rounds: nat, visited: set<BoardKey>)
    requires Wins(mv, b, steps, rounds, visited)
    ensures var t := Trace(mv, b, steps, rounds);
            && |t| == |steps| + 1 && t[0] == b
            && (forall i :: 1 <= i < |t| ==> Key(t[i]) !in visited + {Key(b)})
            && (forall i, j :: 0 <= i < j < |t| ==> Key(t[i]) != Key(t[j]))
    decreases |steps|
  {
    if steps != [] {
      var next := mv(b, steps[0], rounds).value;
      var seen := visited + {Key(b)};
      TraceFresh(mv, next, steps[1..], rounds, seen);
      var t := Trace(mv, b, steps, rounds);
      var t' := Trace(mv, next, steps[1..], rounds);
      assert t == [b] + t';
      assert forall i :: 0 <= i < |t'| ==> Key(t'[i]) !in seen;
      forall i | 1 <= i < |t| ensures Key(t[i]) !in visited + {Key(b)} {
        assert t[i] == t'[i - 1];
      }
      forall i, j | 0 <= i < j < |t| ensures Key(t[i]) != Key(t[j]) {
        assert t[j] == t'[j - 1];
        if i > 0 {
          assert t[i] == t'[i - 1];
        }
      }
    }
  }

  /** No sequence of moves wins from `b`. */
  ghost predicate NoWin(mv: MoveRule, b: Board, rounds: nat, visited: set<BoardKey>)
  {
    forall steps :: !Wins(mv, b, steps, rounds, visited)
  }

  /** A move to an unseen board, followed by a win from there, wins from
      `b`. */
  lemma WinsStep(mv: MoveRule, b: Board, a: Path, rest: seq<Path>, next: Board, rounds: nat, visited: set<BoardKey>)
    requires mv(b, a, rounds) == Some(next)
    requires Key(next) !in visited + {Key(b)} && Wins(mv, next, rest, rounds, visited + {Key(b)})
    ensures Wins(mv, b, [a] + rest, rounds, visited)
  {
    assert ([a] + rest)[1..] == rest;
  }

  /** The candidates list the moves applied to `b` with the boards they
      settle into. */
  ghost predicate Honest(b: Board, rounds: nat, s: seq<Candidate>)
    requires WF(b)
  {
    forall j :: 0 <= j < |s| ==> Apply(b, s[j].action, rounds) == Done(s[j].next)
  }

  function ActionsOf(s: seq<Candidate>): set<Path>
  {
    set j | 0 <= j < |s| :: s[j].action
  }

  lemma ActionsOfAppend(s: seq<Candidate>, c: Candidate)
    ensures ActionsOf(s + [c]) == ActionsOf(s) + {c.action}
  {
    var s' := s + [c];
    forall a | a in ActionsOf(s) ensures a in ActionsOf(s') {
      var j :| 0 <= j < |s| && s[j].action == a;
      assert s'[j] == s[j];
    }
    assert s'[|s|] == c;
  }

  /** When every listed move settles and the list covers discovery, every
      discovered move settles: its reversal, if that is the one listed, does
      the same. */
  lemma ListedMovesSettle(b: Board, rounds: nat, items: seq<Candidate>)
    requires WF(b) && Honest(b, rounds, items) && Covers(ActionsOf(items), Discovered(b))
    ensures !Unsettled(b, rounds)
  {
    forall a | a in Discovered(b) ensures Apply(b, a, rounds).Done? {
      if a !in ActionsOf(items) {
        DiscoveredIsValid(b, a);
        ApplyReversed(b, a, rounds);
        var j :| 0 <= j < |items| && items[j].action == Reversed(a);
      } else {
        var j :| 0 <= j < |items| && items[j].action == a;
      }
    }
  }

  /** A reordering keeps the moves and their boards. */
  lemma Reordered(b: Board, rounds: nat, items: seq<Candidate>, order: seq<Candidate>)
    requires WF(b) && multiset(order) == multiset(items) && Honest(b, rounds, items)
    ensures ActionsOf(order) == ActionsOf(items) && Honest(b, rounds, order)
  {
    forall j | 0 <= j < |order| ensures order[j] in items {
      assert order[j] in multiset(order);
    }
    forall j | 0 <= j < |items| ensures items[j] in order {
      assert items[j] in multiset(items);
    }
  }

  /** Each candidate is a move under `mv` to a well-formed board. */
  ghost predicate Moves(mv: MoveRule, b: Board, rounds: nat, order: seq<Candidate>)
  {
    forall j :: 0 <= j < |order| ==> WF(order[j].next) && mv(b, order[j].action, rounds) == Some(order[j].next)
  }

  /** Every board a move under `mv` leads to is the board of a candidate
      whose move has the same length, so the two have the same sort key. */
  ghost predicate Reaches(mv: MoveRule, b: Board, rounds: nat, order: seq<Candidate>)
  {
    forall a :: mv(b, a, rounds).Some? ==>
      exists j :: 0 <= j < |order| && order[j].next == mv(b, a, rounds).value && |order[j].action| == |a|
  }

  /** The sorted candidates are moves under `Move`, and they reach every
      board a move reaches: a move left out because its reversal was kept
      settles into the same board. */
  lemma CandidatesComplete(mv: MoveRule, b: Board, rounds: nat, order: seq<Candidate>)
    requires Follows(mv) && WF(b) && Honest(b, rounds, order)
    requires ActionsOf(order) <= Discovered(b) && Covers(ActionsOf(order), Discovered(b))
    ensures Moves(mv, b, rounds, order) && Reaches(mv, b, rounds, order)
  {
    forall j | 0 <= j < |order| ensures WF(order[j].next) && mv(b, order[j].action, rounds) == Some(order[j].next) {
      assert order[j].action in ActionsOf(order);
      ApplyEffects(b, order[j].action, rounds);
      assert mv(b, order[j].action, rounds) == Move(b, order[j].action, rounds);
    }
    forall a | mv(b, a, rounds).Some?
      ensures exists j :: 0 <= j < |order| && order[j].next == mv(b, a, rounds).value && |order[j].action| == |a|
    {
      assert mv(b, a, rounds) == Move(b, a, rounds);
      DiscoveredIsValid(b, a);
      ApplyReversed(b, a, rounds);
      var j :| 0 <= j < |order| && (order[j].action == a || order[j].action == Reversed(a));
      assert order[j].next == Apply(b, a, rounds).board && |order[j].action| == |a|;
    }
  }

  /** When the board is not solved and no candidate leads to an unseen
      board from which a win exists, there is no win. */
  lemma NoWinFromCandidates(mv: MoveRule, b: Board, rounds: nat, visited: set<BoardKey>, order: seq<Candidate>)
    requires !IsSolved(b) && Reaches(mv, b, rounds, order)
    requires forall j :: 0 <= j < |order| ==>
               Key(order[j].next) in visited + {Key(b)} || NoWin(mv, order[j].next, rounds, visited + {Key(b)})
    ensures NoWin(mv, b, rounds, visited)
  {
    forall steps ensures !Wins(mv, b, steps, rounds, visited) {
    }
  }

  /** `a` is the move of the `i`-th candidate, whose board is unseen, and
      every earlier candidate leads to a seen board or to one from which
      no win exists: the loop over the sorted candidates stops at `i`. */
  ghost predicate FirstFound(mv: MoveRule, b: Board, rounds: nat, visited: set<BoardKey>, order: seq<Candidate>,
                             a: Path)
  {
    exists i :: 0 <= i < |order| && order[i].action == a && Key(order[i].next) !in visited + {Key(b)}
      && forall j :: 0 <= j < i ==>
           Key(order[j].next) in visited + {Key(b)} || NoWin(mv, order[j].next, rounds, visited + {Key(b)})
  }

  /** `a` is a move to an unseen board, and every move whose board comes
      strictly before it in key order leads to a seen board or to one from
      which no win exists. */
  ghost predicate FirstInKeyOrder(mv: MoveRule, b: Board, rounds: nat, visited: set<BoardKey>, a: Path)
  {
    mv(b, a, rounds).Some? && Key(mv(b, a, rounds).value) !in visited + {Key(b)}
    && forall a' ::
         (mv(b, a', rounds).Some?
          && !Before(Candidate(a, mv(b, a, rounds).value), Candidate(a', mv(b, a', rounds).value))) ==>
           (Key(mv(b, a', rounds).value) in visited + {Key(b)}
            || NoWin(mv, mv(b, a', rounds).value, rounds, visited + {Key(b)}))
  }

  /** The candidate the loop stops at in a sorted list of all moves is the
      first in key order, whatever order the candidates were listed in. */
  lemma FirstInOrder(mv: MoveRule, b: Board, rounds: nat, visited: set<BoardKey>, order: seq<Candidate>, a: Path)
    requires Moves(mv, b, rounds, order) && Reaches(mv, b, rounds, order) && SortedByKey(order)
    requires FirstFound(mv, b, rounds, visited, order, a)
    ensures FirstInKeyOrder(mv, b, rounds, visited, a)
  {
    var i :| 0 <= i < |order| && order[i].action == a && Key(order[i].next) !in visited + {Key(b)}
      && forall j :: 0 <= j < i ==>
           Key(order[j].next) in visited + {Key(b)} || NoWin(mv, order[j].next, rounds, visited + {Key(b)});
    assert order[i] == Candidate(a, mv(b, a, rounds).value);
    forall a' | mv(b, a', rounds).Some?
      && !Before(Candidate(a, mv(b, a, rounds).value), Candidate(a', mv(b, a', rounds).value))
      ensures Key(mv(b, a', rounds).value) in visited + {Key(b)}
              || NoWin(mv, mv(b, a', rounds).value, rounds, visited + {Key(b)})
    {
      var j :| 0 <= j < |order| && order[j].next == mv(b, a', rounds).value && |order[j].action| == |a'|;
      StrictlyBeforeComesFirst(order, i, j, Candidate(a', mv(b, a', rounds).value));
    }
  }

  /** In a sorted list, a candidate with the same key as one strictly
      before the `i`-th sits before position `i`. */
  lemma StrictlyBeforeComesFirst(order: seq<Candidate>, i: nat, j: nat, x: Candidate)
    requires SortedByKey(order) && i < |order| && j < |order|
    requires order[j].next == x.next && |order[j].action| == |x.action| && !Before(order[i], x)
    ensures j < i
  {
    if i <= j {
      assert false;
    }
  }

  /** The outcome of the search. `Failed` is where the source would raise
      (a `KeyError` in `apply_to`), loop forever (a cascade that does not
      settle within `rounds`), or where the search went deeper than
      `depth` moves. */
  datatype Answer = Solution(actions: seq<Path>) | NoSolution | Failed

  /** The dictionary comprehension `{action: action.apply_to(map_) ...}`:
      every move with the board it settles into; `None` where some cascade
      does not settle. */
  method Neighbours(b: Board, acts: set<Path>, rounds: nat) returns (items: Option<seq<Candidate>>)
    requires WF(b)
    ensures items.Some? ==> ActionsOf(items.value) == acts && Honest(b, rounds, items.value)
    ensures items.None? ==> exists a :: a in acts && !Apply(b, a, rounds).Done?
  {
    var found: seq<Candidate> := [];
    var todo := acts;
    while todo != {}
      invariant todo <= acts && ActionsOf(found) == acts - todo
      invariant Honest(b, rounds, found)
    {
      var a :| a in todo;
      var o := ApplyTo(b, a, rounds);
      if !o.Done? {
        return None;
      }
      ActionsOfAppend(found, Candidate(a, o.board));
      found := found + [Candidate(a, o.board)];
      todo := todo - {a};
    }
    return Some(found);
  }

  /** `solve`: the board is marked visited; a solved board returns the moves
      so far; otherwise every move's board is computed, the moves are tried
      in key order, skipping boards already visited, each on a copy of the
      visited set, and the first non-empty solution is returned. */
  method Solve(ghost mv: MoveRule, b: Board, actions: seq<Path>, visited: set<BoardKey>, rounds: nat, depth: nat)
    returns (ans: Answer)
    requires Follows(mv) && WF(b)
    ensures IsSolved(b) ==> ans == Solution(actions)
    ensures ans.Solution? ==>
              |actions| <= |ans.actions| && ans.actions[..|actions|] == actions
              && Wins(mv, b, ans.actions[|actions|..], rounds, visited)
    ensures ans == NoSolution ==> NoWin(mv, b, rounds, visited)
    ensures ans.Solution? && !IsSolved(b) ==>
              |ans.actions| > |actions| && FirstInKeyOrder(mv, b, rounds, visited, ans.actions[|actions|])
    ensures !IsSolved(b) && depth > 0 && Unsettled(b, rounds) ==> ans == Failed
    decreases depth, 2
  {
    if IsSolved(b) {
      assert actions[|actions|..] == [];
      return Solution(actions);
    }
    if depth == 0 {
      return Failed;
    }
    var acts := GetActions(b);
    var items := Neighbours(b, acts, rounds);
    if items.None? {
      return Failed;
    }
    ListedMovesSettle(b, rounds, items.value);
    var order := SortByKey(items.value);
    SortByKeyCorrect(items.value);
    Reordered(b, rounds, items.value, order);
    CandidatesComplete(mv, b, rounds, order);
    ans := TryInOrder(mv, b, actions, visited, rounds, depth, order);
    if ans == NoSolution {
      NoWinFromCandidates(mv, b, rounds, visited, order);
    } else if ans.Solution? {
      FirstInOrder(mv, b, rounds, visited, order, ans.actions[|actions|]);
    }
  }

  /** The `for action, neighbor in ...` loop of `solve`, over the sorted
      candidates. */
  method TryInOrder(ghost mv: MoveRule, b: Board, actions: seq<Path>, visited: set<BoardKey>, rounds: nat,
                    depth: nat, order: seq<Candidate>) returns (ans: Answer)
    requires Follows(mv) && depth > 0 && Moves(mv, b, rounds, order)
    ensures ans.Solution? ==>
              |actions| <= |ans.actions| && ans.actions[..|actions|] == actions
              && Wins(mv, b, ans.actions[|actions|..], rounds, visited)
    ensures ans == NoSolution ==> forall j :: 0 <= j < |order| ==>
              Key(order[j].next) in visited + {Key(b)} || NoWin(mv, order[j].next, rounds, visited + {Key(b)})
    ensures ans.Solution? ==>
              |ans.actions| > |actions| && FirstFound(mv, b, rounds, visited, order, ans.actions[|actions|])
    decreases depth, 1
  {
    var seen := visited + {Key(b)};
    for i := 0 to |order|
      invariant forall j :: 0 <= j < i ==>
                  Key(order[j].next) in seen || NoWin(mv, order[j].next, rounds, seen)
    {
      var c := order[i];
      if Key(c.next) !in seen {
        var sol := TryOne(mv, b, actions, visited, rounds, depth, c);
        if sol.Solution? && |sol.actions| > 0 {
          assert order[i].action == sol.actions[|actions|];
          return sol;
        }
        if sol.Failed? {
          return Failed;
        }
      }
    }
    return NoSolution;
  }

  /** The body of that loop for one candidate whose board is unseen:
      `solve(neighbor, [*actions, action], visited.copy())`. */
  method TryOne(ghost mv: MoveRule, b: Board, actions: seq<Path>, visited: set<BoardKey>, rounds: nat,
                depth: nat, c: Candidate) returns (sol: Answer)
    requires Follows(mv) && WF(c.next) && depth > 0
    requires mv(b, c.action, rounds) == Some(c.next) && Key(c.next) !in visited + {Key(b)}
    ensures sol.Solution? && |sol.actions| > 0 ==>
              |actions| <= |sol.actions| && sol.actions[..|actions|] == actions
              && Wins(mv, b, sol.actions[|actions|..], rounds, visited)
    ensures sol.Solution? ==> |sol.actions| > |actions| && sol.actions[|actions|] == c.action
    ensures sol == NoSolution ==> NoWin(mv, c.next, rounds, visited + {Key(b)})
    decreases depth, 0
  {
    sol := Solve(mv, c.next, actions + [c.action], visited + {Key(b)}, rounds, depth - 1);
    if sol.Solution? && |sol.actions| > 0 {
      SolutionExtends(mv, b, actions, c, sol.actions, rounds, visited);
    }
  }

  /** A solution found from a candidate's board is one from `b`. */
  lemma SolutionExtends(mv: MoveRule, b: Board, actions: seq<Path>, c: Candidate, sol: seq<Path>, rounds: nat,
                        visited: set<BoardKey>)
    requires mv(b, c.action, rounds) == Some(c.next) && Key(c.next) !in visited + {Key(b)}
    requires |actions + [c.action]| <= |sol| && sol[..|actions| + 1] == actions + [c.action]
    requires Wins(mv, c.next, sol[|actions| + 1..], rounds, visited + {Key(b)})
    ensures |actions| <= |sol| && sol[..|actions|] == actions && sol[|actions|] == c.action
    ensures Wins(mv, b, sol[|actions|..], rounds, visited)
  {
    var rest := sol[|actions| + 1..];
    PrefixParts(sol, actions, c.action);
    DropOne(sol, |actions|);
    WinsStep(mv, b, c.action, rest, c.next, rounds, visited);
  }

  lemma PrefixParts<T>(s: seq<T>, p: seq<T>, x: T)
    requires |p| + 1 <= |s| && s[..|p| + 1] == p + [x]
    ensures s[..|p|] == p && s[|p|] == x
  {
    assert s[..|p|] == s[..|p| + 1][..|p|];
    assert s[|p|] == s[..|p| + 1][|p|];
  }

  lemma DropOne<T>(s: seq<T>, i: nat)
    requires i < |s|
    ensures s[i..] == [s[i]] + s[i + 1..]
  {
  }

  /** The top-level call `solve(map_, [], set())`. A board that is already
      solved gives the empty list, which the caller's `if sol:` reads as
      no solution. */
  method SolvePuzzle(b: Board, rounds: nat, depth: nat) returns (ans: Answer)
    requires WF(b)
    ensures IsSolved(b) ==> ans == Solution([])
    ensures ans.Solution? ==> Wins(Move, b, ans.actions, rounds, {})
    ensures ans == NoSolution ==> NoWin(Move, b, rounds, {})
    ensures !IsSolved(b) && depth > 0 && Unsettled(b, rounds) ==> ans == Failed
  {
    ans := Solve(Move, b, [], {}, rounds, depth);
    if ans.Solution? {
      assert ans.actions[0..] == ans.actions;
    }
  }
}
