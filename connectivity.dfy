/**
 * The flood fill that labels one 4-connected area of passable cells
 * (`RoomData.floodFillArea`), and the walks that say what "connected" means.
 */
module Connectivity {
  import opened Wrappers
  import opened FlatGridVector
  import opened GridEntities
  import opened Utils
  import opened Passability

  /** What a flood fill reads for a key: the cached tile table, or the live room. */
  type Snapshot = FlatKey -> Option<GridEntityData>

  /** A label map of one collision class: flat key to area index, -1 for blocked. */
  type AreaMap = map<FlatKey, int>

  ghost predicate Open(cell: Snapshot, cls: int, k: FlatKey) {
    IsGridDataPassable(cell(k), cls)
  }

  /** The in-bounds keys of a room shape. */
  ghost function ValidKeys(shape: int): set<FlatKey> {
    set k | 0 <= k < SHIFT * SHIFT && IsValidFlatGridPosition(k, shape)
  }

  /** Each step of `w` moves to a cardinal neighbour. */
  ghost predicate Steps(w: seq<FlatKey>) {
    forall j | 0 <= j < |w| - 1 :: w[j + 1] in CardinalNeighbors(w[j])
  }

  /**
   * A walk for an entity of class `cls`: every cell passable, every cell after
   * the first in bounds, every step to a cardinal neighbour.
   */
  ghost predicate IsWalk(w: seq<FlatKey>, cell: Snapshot, cls: int, shape: int) {
    && |w| >= 1
    && (forall j | 0 <= j < |w| :: Open(cell, cls, w[j]))
    && (forall j | 1 <= j < |w| :: IsValidFlatGridPosition(w[j], shape))
    && Steps(w)
  }

  /** `b` can be reached from `a` by a walk. */
  ghost predicate Reaches(cell: Snapshot, cls: int, shape: int, a: FlatKey, b: FlatKey) {
    exists w :: IsWalk(w, cell, cls, shape) && w[0] == a && w[|w| - 1] == b
  }

  /** A one-cell walk: an open cell reaches itself. */
  lemma ReachesSelf(cell: Snapshot, cls: int, shape: int, a: FlatKey)
    requires Open(cell, cls, a)
    ensures Reaches(cell, cls, shape, a, a)
  {
    assert IsWalk([a], cell, cls, shape);
  }

  /** Walks join end to start. */
  lemma {:induction false} ReachesTransitive(cell: Snapshot, cls: int, shape: int, a: FlatKey, b: FlatKey, c: FlatKey)
    requires Reaches(cell, cls, shape, a, b) && Reaches(cell, cls, shape, b, c)
    ensures Reaches(cell, cls, shape, a, c)
  {
    var w1 :| IsWalk(w1, cell, cls, shape) && w1[0] == a && w1[|w1| - 1] == b;
    var w2 :| IsWalk(w2, cell, cls, shape) && w2[0] == b && w2[|w2| - 1] == c;
    JoinWalks(w1, w2, cell, cls, shape);
    var w := w1 + w2[1..];
    assert w[0] == a && w[|w| - 1] == c;
  }

  /** Two walks, the second starting where the first ends, make one walk. */
  lemma JoinWalks(w1: seq<FlatKey>, w2: seq<FlatKey>, cell: Snapshot, cls: int, shape: int)
    requires IsWalk(w1, cell, cls, shape) && IsWalk(w2, cell, cls, shape) && w1[|w1| - 1] == w2[0]
    ensures IsWalk(w1 + w2[1..], cell, cls, shape)
  {
    JoinedCells(w1, w2, cell, cls, shape);
    JoinedSteps(w1, w2);
  }

  lemma JoinedCells(w1: seq<FlatKey>, w2: seq<FlatKey>, cell: Snapshot, cls: int, shape: int)
    requires IsWalk(w1, cell, cls, shape) && IsWalk(w2, cell, cls, shape)
    ensures var w := w1 + w2[1..];
      && (forall j | 0 <= j < |w| :: Open(cell, cls, w[j]))
      && (forall j | 1 <= j < |w| :: IsValidFlatGridPosition(w[j], shape))
  {
    var w := w1 + w2[1..];
    forall j | 0 <= j < |w| ensures Open(cell, cls, w[j]) && (j >= 1 ==> IsValidFlatGridPosition(w[j], shape)) {
      if j >= |w1| { assert w[j] == w2[j - |w1| + 1]; } else { assert w[j] == w1[j]; }
    }
  }

  lemma JoinedSteps(w1: seq<FlatKey>, w2: seq<FlatKey>)
    requires |w1| >= 1 && |w2| >= 1 && Steps(w1) && Steps(w2) && w1[|w1| - 1] == w2[0]
    ensures Steps(w1 + w2[1..])
  {
    var w := w1 + w2[1..];
    forall j | 0 <= j < |w| - 1 ensures w[j + 1] in CardinalNeighbors(w[j]) {
      if j >= |w1| {
        assert w[j] == w2[j - |w1| + 1] && w[j + 1] == w2[j - |w1| + 2];
      } else if j == |w1| - 1 {
        assert w[j] == w2[0] && w[j + 1] == w2[1];
      } else {
        assert w[j] == w1[j] && w[j + 1] == w1[j + 1];
      }
    }
  }

  /** Walks between in-bounds cells can be run backwards. */
  lemma {:induction false} ReachesSymmetric(cell: Snapshot, cls: int, shape: int, a: FlatKey, b: FlatKey)
    requires Reaches(cell, cls, shape, a, b) && IsValidFlatGridPosition(a, shape)
    ensures Reaches(cell, cls, shape, b, a)
  {
    var w :| IsWalk(w, cell, cls, shape) && w[0] == a && w[|w| - 1] == b;
    var v := seq(|w|, j requires 0 <= j < |w| => w[|w| - 1 - j]);
    forall j | 0 <= j < |v| ensures Open(cell, cls, v[j]) {
      assert v[j] == w[|w| - 1 - j];
    }
    forall j | 1 <= j < |v| ensures IsValidFlatGridPosition(v[j], shape) {
      assert v[j] == w[|w| - 1 - j];
    }
    forall j | 0 <= j < |v| - 1 ensures v[j + 1] in CardinalNeighbors(v[j]) {
      NeighborSymmetric(w[|w| - 2 - j], w[|w| - 1 - j]);
    }
    assert IsWalk(v, cell, cls, shape) && v[0] == b && v[|v| - 1] == a;
  }

  /**
   * The labels in [lo, hi) are closed in `m`: every in-bounds neighbour of a
   * key carrying one carries the same label, or is blocked and labelled -1.
   */
  ghost predicate Closed(m: AreaMap, cell: Snapshot, cls: int, shape: int, lo: int, hi: int) {
    forall c | c in m && lo <= m[c] < hi :: NeighborsJoined(m, cell, cls, shape, c)
  }

  /** Every in-bounds neighbour of `c` carries the label of `c`, or is blocked at -1. */
  ghost predicate NeighborsJoined(m: AreaMap, cell: Snapshot, cls: int, shape: int, c: FlatKey) {
    c in m &&
    forall n | n in CardinalNeighbors(c) && IsValidFlatGridPosition(n, shape) ::
      n in m && (m[n] == m[c] || (m[n] == -1 && !Open(cell, cls, n)))
  }

  /** A walk that starts on a closed label keeps that label at every cell. */
  lemma {:induction false} ClosedLabelSpreads(m: AreaMap, cell: Snapshot, cls: int, shape: int, lo: int, hi: int,
                                              w: seq<FlatKey>)
    requires Closed(m, cell, cls, shape, lo, hi) && IsWalk(w, cell, cls, shape)
    requires w[0] in m && lo <= m[w[0]] < hi
    ensures forall j | 0 <= j < |w| :: w[j] in m && m[w[j]] == m[w[0]]
    decreases |w|
  {
    if |w| > 1 {
      var u := w[..|w| - 1];
      assert IsWalk(u, cell, cls, shape) by {
        forall j | 0 <= j < |u| - 1 ensures u[j + 1] in CardinalNeighbors(u[j]) {
          assert u[j] == w[j] && u[j + 1] == w[j + 1];
        }
      }
      ClosedLabelSpreads(m, cell, cls, shape, lo, hi, u);
      var c, n := w[|w| - 2], w[|w| - 1];
      assert c == u[|u| - 1];
      assert n in CardinalNeighbors(c) && IsValidFlatGridPosition(n, shape) && Open(cell, cls, n);
      forall j | 0 <= j < |w| ensures w[j] in m && m[w[j]] == m[w[0]] {
        if j < |w| - 1 {
          assert w[j] == u[j];
        }
      }
    }
  }

  /** Whatever a key with a closed label reaches carries the same label. */
  lemma ReachedKeepsLabel(m: AreaMap, cell: Snapshot, cls: int, shape: int, lo: int, hi: int, a: FlatKey, b: FlatKey)
    requires Closed(m, cell, cls, shape, lo, hi) && a in m && lo <= m[a] < hi
    requires Reaches(cell, cls, shape, a, b)
    ensures b in m && m[b] == m[a]
  {
    var w :| IsWalk(w, cell, cls, shape) && w[0] == a && w[|w| - 1] == b;
    ClosedLabelSpreads(m, cell, cls, shape, lo, hi, w);
  }

  /**
   * The keys one scan of the neighbour list pushes: a candidate is pushed when
   * it is in bounds, not already queued (before the scan or by this scan) and
   * not already labelled `fill`.
   */
  function Pushed(cands: seq<FlatKey>, queued: set<FlatKey>, m: AreaMap, fill: int, shape: int): (r: seq<FlatKey>)
    ensures forall n | n in r :: n in cands && IsValidFlatGridPosition(n, shape) && n !in queued && Get(m, n) != Some(fill)
    ensures forall n | n in cands && IsValidFlatGridPosition(n, shape) :: n in r || n in queued || Get(m, n) == Some(fill)
    ensures forall i, j | 0 <= i < j < |r| :: r[i] != r[j]
    decreases |cands|
  {
    if cands == [] then []
    else
      var prev := Pushed(cands[..|cands| - 1], queued, m, fill, shape);
      var n := cands[|cands| - 1];
      if IsValidFlatGridPosition(n, shape) && n !in queued && n !in prev && Get(m, n) != Some(fill) then prev + [n]
      else prev
  }

  /** A walk from `start` to `end` whose every cell but the last has been filled. */
  ghost predicate Trail(w: seq<FlatKey>, filled: set<FlatKey>, shape: int, start: FlatKey, end: FlatKey) {
    && |w| >= 1 && w[0] == start && w[|w| - 1] == end
    && (forall j | 0 <= j < |w| - 1 :: w[j] in filled)
    && (forall j | 1 <= j < |w| :: IsValidFlatGridPosition(w[j], shape))
    && Steps(w)
  }

  /** The stack never holds a key twice, and the queued set is exactly its contents. */
  ghost predicate StackInv(stack: seq<FlatKey>, queued: set<FlatKey>) {
    && (forall i, j | 0 <= i < j < |stack| :: stack[i] != stack[j])
    && (forall j | 0 <= j < |stack| :: stack[j] in queued)
    && (forall k | k in queued :: k in stack)
  }

  /** What the fill has written so far, relative to the map it started from. */
  ghost predicate LabelInv(areaMap: AreaMap, start: FlatKey, cls: int, fill: int, shape: int, cell: Snapshot,
                           m: AreaMap, stack: seq<FlatKey>, filled: set<FlatKey>)
  {
    && filled <= ValidKeys(shape) + {start}
    && (forall j | 0 <= j < |stack| :: stack[j] in ValidKeys(shape) + {start} && stack[j] !in filled)
    && areaMap.Keys <= m.Keys
    && (forall k | k in m && k !in areaMap :: k in ValidKeys(shape) + {start})
    && (forall k | k in filled :: k in m && m[k] == fill && Open(cell, cls, k))
    && (forall k | k in m && (k !in areaMap || m[k] != areaMap[k]) ::
          (m[k] == fill && k in filled) || (m[k] == -1 && !Open(cell, cls, k)))
  }

  /** Every filled or stacked key has a trail from the start. */
  ghost predicate TrailInv(start: FlatKey, shape: int, stack: seq<FlatKey>, filled: set<FlatKey>,
                           walks: map<FlatKey, seq<FlatKey>>)
  {
    && filled <= walks.Keys
    && (forall j | 0 <= j < |stack| :: stack[j] in walks)
    && (forall k | k in walks :: Trail(walks[k], filled, shape, start, k))
  }

  /** Every in-bounds neighbour of a filled key is queued, labelled `fill`, or blocked and labelled -1. */
  ghost predicate ClosureInv(cls: int, fill: int, shape: int, cell: Snapshot,
                             m: AreaMap, queued: set<FlatKey>, filled: set<FlatKey>)
  {
    forall c, n | c in filled && n in CardinalNeighbors(c) && IsValidFlatGridPosition(n, shape) ::
      n in queued || (n in m && (m[n] == fill || (m[n] == -1 && !Open(cell, cls, n))))
  }

  /** The start is popped first and filled exactly when it is open. */
  ghost predicate StartInv(start: FlatKey, cls: int, fill: int, cell: Snapshot,
                           m: AreaMap, stack: seq<FlatKey>, filled: set<FlatKey>)
  {
    && (Open(cell, cls, start) ==> start in filled || (stack == [start] && filled == {}))
    && (!Open(cell, cls, start) ==> (stack == [start] && filled == {}) || (stack == [] && start in m && m[start] == -1))
  }

  ghost predicate FillInv(areaMap: AreaMap, start: FlatKey, cls: int, fill: int, shape: int, cell: Snapshot,
                          m: AreaMap, stack: seq<FlatKey>, queued: set<FlatKey>, filled: set<FlatKey>,
                          walks: map<FlatKey, seq<FlatKey>>)
  {
    && StackInv(stack, queued)
    && LabelInv(areaMap, start, cls, fill, shape, cell, m, stack, filled)
    && TrailInv(start, shape, stack, filled, walks)
    && ClosureInv(cls, fill, shape, cell, m, queued, filled)
    && StartInv(start, cls, fill, cell, m, stack, filled)
    && OriginInv(areaMap, start, shape, m, stack, filled)
  }

  /** `k` is a cardinal neighbour of some key of `keys`. */
  ghost predicate Beside(k: FlatKey, keys: set<FlatKey>) {
    exists c | c in keys :: k in CardinalNeighbors(c)
  }

  /**
   * Where the fill's keys come from: every stacked key, and every key whose
   * label the fill changed, is the start or an in-bounds neighbour of a filled key.
   */
  ghost predicate OriginInv(areaMap: AreaMap, start: FlatKey, shape: int, m: AreaMap, stack: seq<FlatKey>,
                            filled: set<FlatKey>)
  {
    && (forall j | 0 <= j < |stack| :: stack[j] == start || (IsValidFlatGridPosition(stack[j], shape) && Beside(stack[j], filled)))
    && (forall k | k in m && (k !in areaMap || m[k] != areaMap[k]) ::
          k == start || (IsValidFlatGridPosition(k, shape) && Beside(k, filled)))
  }

  /** Popping a key and labelling it keeps every origin; the keys pushed next to it are beside a filled key. */
  lemma OriginStep(areaMap: AreaMap, start: FlatKey, shape: int, m: AreaMap, stack: seq<FlatKey>,
                   filled: set<FlatKey>, written: int, filled': set<FlatKey>, pushed: seq<FlatKey>)
    requires OriginInv(areaMap, start, shape, m, stack, filled) && |stack| > 0
    requires filled <= filled'
    requires forall n | n in pushed :: n in CardinalNeighbors(stack[|stack| - 1]) && IsValidFlatGridPosition(n, shape)
    requires pushed != [] ==> stack[|stack| - 1] in filled'
    ensures var x := stack[|stack| - 1];
      OriginInv(areaMap, start, shape, m[x := written], stack[..|stack| - 1] + pushed, filled')
  {
    var x := stack[|stack| - 1];
    var s := stack[..|stack| - 1] + pushed;
    forall j | 0 <= j < |s| ensures s[j] == start || (IsValidFlatGridPosition(s[j], shape) && Beside(s[j], filled')) {
      if j < |stack| - 1 {
        assert s[j] == stack[j];
        if s[j] != start {
          var c :| c in filled && s[j] in CardinalNeighbors(c);
          assert c in filled';
        }
      } else {
        assert s[j] in pushed;
        assert x in filled';
      }
    }
    forall k | k in m[x := written] && (k !in areaMap || m[x := written][k] != areaMap[k])
      ensures k == start || (IsValidFlatGridPosition(k, shape) && Beside(k, filled'))
    {
      var k' := if k == x then stack[|stack| - 1] else k;
      if k' != start {
        var c :| c in filled && k' in CardinalNeighbors(c);
        assert c in filled';
      }
    }
  }

  /** At the end of the fill, a key beside a filled key is next to an open key labelled `fill` and reached from the start. */
  lemma OriginDone(areaMap: AreaMap, start: FlatKey, cls: int, fill: int, shape: int, cell: Snapshot,
                   m: AreaMap, filled: set<FlatKey>, walks: map<FlatKey, seq<FlatKey>>)
    requires OriginInv(areaMap, start, shape, m, [], filled)
    requires LabelInv(areaMap, start, cls, fill, shape, cell, m, [], filled)
    requires TrailInv(start, shape, [], filled, walks)
    ensures FillOrigins(areaMap, start, cls, fill, shape, cell, m)
  {
    FilledAreReached(start, cls, shape, cell, filled, walks);
    forall k | k in m && (k !in areaMap || m[k] != areaMap[k]) && k != start
      ensures NextToFill(m, start, cls, fill, shape, cell, k)
    {
      var c :| c in filled && k in CardinalNeighbors(c);
      assert c in m && m[c] == fill && Open(cell, cls, c) && Reaches(cell, cls, shape, start, c);
    }
  }

  lemma FillStarts(areaMap: AreaMap, start: FlatKey, cls: int, fill: int, shape: int, cell: Snapshot)
    ensures FillInv(areaMap, start, cls, fill, shape, cell, areaMap, [start], {start}, {}, map[start := [start]])
  {
  }

  /** Popping a blocked key labels it -1 and keeps every invariant. */
  lemma FillStepBlocked(areaMap: AreaMap, start: FlatKey, cls: int, fill: int, shape: int, cell: Snapshot,
                        m: AreaMap, stack: seq<FlatKey>, queued: set<FlatKey>, filled: set<FlatKey>,
                        walks: map<FlatKey, seq<FlatKey>>)
    requires FillInv(areaMap, start, cls, fill, shape, cell, m, stack, queued, filled, walks)
    requires |stack| > 0 && !Open(cell, cls, stack[|stack| - 1])
    ensures var x := stack[|stack| - 1];
      FillInv(areaMap, start, cls, fill, shape, cell, m[x := -1], stack[..|stack| - 1], queued - {x}, filled, walks)
  {
    var x := stack[|stack| - 1];
    var stack' := stack[..|stack| - 1];
    PopStack(stack, queued);
    PopBlockedLabels(areaMap, start, cls, fill, shape, cell, m, stack, filled);
    PopTrails(start, shape, stack, filled, walks);
    PopBlockedClosure(cls, fill, shape, cell, m, queued, filled, x);
    PopBlockedStart(start, cls, fill, cell, m, stack, filled);
    OriginStep(areaMap, start, shape, m, stack, filled, -1, filled, []);
    assert stack' + [] == stack';
  }

  /** Labelling a blocked key -1 keeps every filled key's neighbours accounted for. */
  lemma PopBlockedClosure(cls: int, fill: int, shape: int, cell: Snapshot,
                          m: AreaMap, queued: set<FlatKey>, filled: set<FlatKey>, x: FlatKey)
    requires ClosureInv(cls, fill, shape, cell, m, queued, filled) && !Open(cell, cls, x)
    ensures ClosureInv(cls, fill, shape, cell, m[x := -1], queued - {x}, filled)
  {
  }

  /** Popping a blocked key: if it is the start, the fill ends at once with the start at -1. */
  lemma PopBlockedStart(start: FlatKey, cls: int, fill: int, cell: Snapshot,
                        m: AreaMap, stack: seq<FlatKey>, filled: set<FlatKey>)
    requires StartInv(start, cls, fill, cell, m, stack, filled)
    requires |stack| > 0 && !Open(cell, cls, stack[|stack| - 1])
    ensures var x := stack[|stack| - 1];
      StartInv(start, cls, fill, cell, m[x := -1], stack[..|stack| - 1], filled)
  {
    if stack == [start] {
      assert stack[..|stack| - 1] == [];
    }
  }

  /** Popping the top of the stack keeps the stack free of repeats and in step with the queued set. */
  lemma PopStack(stack: seq<FlatKey>, queued: set<FlatKey>)
    requires StackInv(stack, queued) && |stack| > 0
    ensures var x := stack[|stack| - 1];
      StackInv(stack[..|stack| - 1], queued - {x}) && x !in stack[..|stack| - 1]
  {
    var x := stack[|stack| - 1];
    var stack' := stack[..|stack| - 1];
    assert forall j | 0 <= j < |stack'| :: stack'[j] == stack[j];
    forall j | 0 <= j < |stack'| ensures stack'[j] != x { assert stack[j] != stack[|stack| - 1]; }
  }

  /** Labelling a popped blocked key -1 keeps what the fill has written within bounds. */
  lemma PopBlockedLabels(areaMap: AreaMap, start: FlatKey, cls: int, fill: int, shape: int, cell: Snapshot,
                         m: AreaMap, stack: seq<FlatKey>, filled: set<FlatKey>)
    requires LabelInv(areaMap, start, cls, fill, shape, cell, m, stack, filled)
    requires |stack| > 0 && !Open(cell, cls, stack[|stack| - 1])
    ensures var x := stack[|stack| - 1];
      LabelInv(areaMap, start, cls, fill, shape, cell, m[x := -1], stack[..|stack| - 1], filled)
  {
    var stack' := stack[..|stack| - 1];
    assert forall j | 0 <= j < |stack'| :: stack'[j] == stack[j];
  }

  /** Popping a key keeps a trail for every key still stacked. */
  lemma PopTrails(start: FlatKey, shape: int, stack: seq<FlatKey>, filled: set<FlatKey>,
                  walks: map<FlatKey, seq<FlatKey>>)
    requires TrailInv(start, shape, stack, filled, walks) && |stack| > 0
    ensures TrailInv(start, shape, stack[..|stack| - 1], filled, walks)
  {
    var stack' := stack[..|stack| - 1];
    assert forall j | 0 <= j < |stack'| :: stack'[j] == stack[j];
  }

  /** The cost of filling one more key: the measure of the fill loop goes down. */
  lemma FillingShrinks(u: set<FlatKey>, filled: set<FlatKey>, x: FlatKey)
    requires x in u && x !in filled
    ensures |u - (filled + {x})| < |u - filled|
  {
    assert u - (filled + {x}) == (u - filled) - {x};
  }

  /** Popping an open key labels it `fill`, pushes its new neighbours, and keeps every invariant. */
  lemma FillStepOpen(areaMap: AreaMap, start: FlatKey, cls: int, fill: int, shape: int, cell: Snapshot,
                     m: AreaMap, stack: seq<FlatKey>, queued: set<FlatKey>, filled: set<FlatKey>,
                     walks: map<FlatKey, seq<FlatKey>>)
    requires FillInv(areaMap, start, cls, fill, shape, cell, m, stack, queued, filled, walks)
    requires |stack| > 0 && Open(cell, cls, stack[|stack| - 1])
    ensures var x := stack[|stack| - 1];
      var m', queued' := m[x := fill], queued - {x};
      var pushed := Pushed(CardinalNeighbors(x), queued', m', fill, shape);
      FillInv(areaMap, start, cls, fill, shape, cell, m', stack[..|stack| - 1] + pushed, queued' + (set n | n in pushed),
              filled + {x}, walks + (map n | n in pushed :: walks[x] + [n]))
  {
    var x := stack[|stack| - 1];
    var m', queued' := m[x := fill], queued - {x};
    var pushed := Pushed(CardinalNeighbors(x), queued', m', fill, shape);
    var stack1 := stack[..|stack| - 1];
    var stack' := stack1 + pushed;
    var queued'' := queued' + (set n | n in pushed);
    var filled' := filled + {x};
    var walks' := walks + (map n | n in pushed :: walks[x] + [n]);
    assert forall j | 0 <= j < |stack1| :: stack1[j] == stack[j];
    assert x !in stack1 by {
      forall j | 0 <= j < |stack1| ensures stack1[j] != x { assert stack[j] != stack[|stack| - 1]; }
    }
    StepStack(stack, queued, x, pushed);
    assert StackInv(stack', queued'');
    StepLabels(areaMap, start, cls, fill, shape, cell, m, stack, filled, x, pushed);
    StepTrails(start, shape, stack, filled, walks, x, pushed);
    StepClosure(cls, fill, shape, cell, m, queued, filled, x);
    OriginStep(areaMap, start, shape, m, stack, filled, fill, filled', pushed);
    assert stack' == [] ==> stack1 == [];
  }

  lemma StepStack(stack: seq<FlatKey>, queued: set<FlatKey>, x: FlatKey, pushed: seq<FlatKey>)
    requires StackInv(stack, queued) && |stack| > 0 && x == stack[|stack| - 1]
    requires forall n | n in pushed :: n !in queued - {x}
    requires forall i, j | 0 <= i < j < |pushed| :: pushed[i] != pushed[j]
    ensures StackInv(stack[..|stack| - 1] + pushed, (queued - {x}) + (set n | n in pushed))
  {
    var stack1 := stack[..|stack| - 1];
    var s := stack1 + pushed;
    assert forall j | 0 <= j < |stack1| :: stack1[j] == stack[j];
    assert forall j | 0 <= j < |stack1| :: stack1[j] != x by {
      forall j | 0 <= j < |stack1| ensures stack1[j] != x { assert stack[j] != stack[|stack| - 1]; }
    }
    forall i, j | 0 <= i < j < |s| ensures s[i] != s[j] {
      if j < |stack1| {
        assert s[i] == stack[i] && s[j] == stack[j];
      } else if i < |stack1| {
        assert s[i] in queued - {x};
        assert s[j] in pushed;
      } else {
        assert s[i] == pushed[i - |stack1|] && s[j] == pushed[j - |stack1|];
      }
    }
  }

  lemma StepLabels(areaMap: AreaMap, start: FlatKey, cls: int, fill: int, shape: int, cell: Snapshot,
                   m: AreaMap, stack: seq<FlatKey>, filled: set<FlatKey>, x: FlatKey, pushed: seq<FlatKey>)
    requires LabelInv(areaMap, start, cls, fill, shape, cell, m, stack, filled)
    requires forall i, j | 0 <= i < j < |stack| :: stack[i] != stack[j]
    requires |stack| > 0 && x == stack[|stack| - 1] && Open(cell, cls, x)
    requires forall n | n in pushed :: IsValidFlatGridPosition(n, shape) && Get(m[x := fill], n) != Some(fill)
    ensures LabelInv(areaMap, start, cls, fill, shape, cell, m[x := fill], stack[..|stack| - 1] + pushed, filled + {x})
  {
    var stack1 := stack[..|stack| - 1];
    var s := stack1 + pushed;
    var m' := m[x := fill];
    forall j | 0 <= j < |s| ensures s[j] in ValidKeys(shape) + {start} && s[j] !in filled + {x} {
      if j < |stack1| {
        assert s[j] == stack[j];
        assert stack[j] != stack[|stack| - 1];
      } else {
        var n := s[j];
        assert n in pushed;
        ValidFlatKeyInRange(n, shape);
        assert n in ValidKeys(shape);
        assert n != x;
      }
    }
  }

  lemma StepTrails(start: FlatKey, shape: int, stack: seq<FlatKey>, filled: set<FlatKey>,
                   walks: map<FlatKey, seq<FlatKey>>, x: FlatKey, pushed: seq<FlatKey>)
    requires TrailInv(start, shape, stack, filled, walks)
    requires |stack| > 0 && x == stack[|stack| - 1]
    requires forall n | n in pushed :: n in CardinalNeighbors(x) && IsValidFlatGridPosition(n, shape)
    ensures TrailInv(start, shape, stack[..|stack| - 1] + pushed, filled + {x},
                     walks + (map n | n in pushed :: walks[x] + [n]))
  {
    var filled' := filled + {x};
    var walks' := walks + (map n | n in pushed :: walks[x] + [n]);
    var s := stack[..|stack| - 1] + pushed;
    assert x in walks;
    forall k | k in walks' ensures Trail(walks'[k], filled', shape, start, k) {
      if k in pushed {
        var w := walks[x] + [k];
        assert Trail(walks[x], filled, shape, start, x);
        assert walks'[k] == w;
        forall j | 0 <= j < |w| - 1 ensures w[j + 1] in CardinalNeighbors(w[j]) {
          if j < |w| - 2 { assert w[j] == walks[x][j] && w[j + 1] == walks[x][j + 1]; }
        }
        assert Trail(w, filled', shape, start, k);
      } else {
        assert Trail(walks[k], filled, shape, start, k);
      }
    }
    forall j | 0 <= j < |s| ensures s[j] in walks' {
      if j < |stack| - 1 { assert s[j] == stack[j]; } else { assert s[j] in pushed; }
    }
  }

  lemma StepClosure(cls: int, fill: int, shape: int, cell: Snapshot,
                    m: AreaMap, queued: set<FlatKey>, filled: set<FlatKey>, x: FlatKey)
    requires ClosureInv(cls, fill, shape, cell, m, queued, filled)
    ensures var m', queued' := m[x := fill], queued - {x};
      var pushed := Pushed(CardinalNeighbors(x), queued', m', fill, shape);
      ClosureInv(cls, fill, shape, cell, m', queued' + (set n | n in pushed), filled + {x})
  {
  }

  /** With the stack empty the fill is done: its results follow from the invariant. */
  lemma FillDone(areaMap: AreaMap, start: FlatKey, cls: int, fill: int, shape: int, cell: Snapshot,
                 m: AreaMap, queued: set<FlatKey>, filled: set<FlatKey>, walks: map<FlatKey, seq<FlatKey>>)
    requires FillInv(areaMap, start, cls, fill, shape, cell, m, [], queued, filled, walks)
    ensures FillResult(areaMap, start, cls, fill, shape, cell, m)
  {
    FillDoneLabels(areaMap, start, cls, fill, shape, cell, m, filled, walks);
    OriginDone(areaMap, start, cls, fill, shape, cell, m, filled, walks);
    FilledKeys(areaMap, start, cls, fill, shape, cell, m, filled);
    FillDoneClosure(areaMap, start, cls, fill, shape, cell, m, queued, filled);
  }

  /** The finished fill's keys, its start and its changed labels. */
  lemma FillDoneLabels(areaMap: AreaMap, start: FlatKey, cls: int, fill: int, shape: int, cell: Snapshot,
                       m: AreaMap, filled: set<FlatKey>, walks: map<FlatKey, seq<FlatKey>>)
    requires LabelInv(areaMap, start, cls, fill, shape, cell, m, [], filled)
    requires TrailInv(start, shape, [], filled, walks)
    requires StartInv(start, cls, fill, cell, m, [], filled)
    ensures forall k | k in m && k !in areaMap :: k == start || IsValidFlatGridPosition(k, shape)
    ensures start in m && m[start] == (if Open(cell, cls, start) then fill else -1)
    ensures forall k | k in m && (k !in areaMap || m[k] != areaMap[k]) ::
              (m[k] == fill && Open(cell, cls, k) && Reaches(cell, cls, shape, start, k)) || (m[k] == -1 && !Open(cell, cls, k))
  {
    FilledAreReached(start, cls, shape, cell, filled, walks);
    forall k | k in m && k !in areaMap ensures k == start || IsValidFlatGridPosition(k, shape) {
      assert k in ValidKeys(shape) + {start};
    }
  }

  /** Every in-bounds neighbour of a key the finished fill labelled is labelled too, or blocked. */
  lemma FillDoneClosure(areaMap: AreaMap, start: FlatKey, cls: int, fill: int, shape: int, cell: Snapshot,
                        m: AreaMap, queued: set<FlatKey>, filled: set<FlatKey>)
    requires StackInv([], queued)
    requires ClosureInv(cls, fill, shape, cell, m, queued, filled)
    requires forall c | c in m && m[c] == fill && Open(cell, cls, c) && (c == start || c !in areaMap || areaMap[c] != fill) ::
               c in filled
    ensures FillClosure(areaMap, start, cls, fill, shape, cell, m)
  {
    forall c, n | c in m && m[c] == fill && Open(cell, cls, c) && (c == start || c !in areaMap || areaMap[c] != fill)
                  && n in CardinalNeighbors(c) && IsValidFlatGridPosition(n, shape)
      ensures n in m && (m[n] == fill || (m[n] == -1 && !Open(cell, cls, n)))
    {
      assert c in filled && n !in queued;
    }
  }

  /** When the fill is done, the open keys it labelled are exactly the filled ones. */
  lemma FilledKeys(areaMap: AreaMap, start: FlatKey, cls: int, fill: int, shape: int, cell: Snapshot,
                   m: AreaMap, filled: set<FlatKey>)
    requires LabelInv(areaMap, start, cls, fill, shape, cell, m, [], filled)
    requires StartInv(start, cls, fill, cell, m, [], filled)
    ensures forall c | c in m && m[c] == fill && Open(cell, cls, c) && (c == start || c !in areaMap || areaMap[c] != fill) ::
              c in filled
  {
  }

  /** Every filled key is open and has a trail through filled keys, so it is reached from the start. */
  lemma FilledAreReached(start: FlatKey, cls: int, shape: int, cell: Snapshot,
                         filled: set<FlatKey>, walks: map<FlatKey, seq<FlatKey>>)
    requires filled <= walks.Keys && forall k | k in filled :: Open(cell, cls, k)
    requires forall k | k in walks :: Trail(walks[k], filled, shape, start, k)
    ensures forall k | k in filled :: Reaches(cell, cls, shape, start, k)
  {
    forall k | k in filled ensures Reaches(cell, cls, shape, start, k) {
      var w := walks[k];
      assert Trail(w, filled, shape, start, k);
      assert IsWalk(w, cell, cls, shape) by {
        forall j | 0 <= j < |w| ensures Open(cell, cls, w[j]) {
          assert w[j] in filled;
        }
      }
    }
  }

  /**
   * `k` is in bounds and next to an open key labelled `fill` that is reached
   * from `start`: a key the fill pushes when it pops that neighbour.
   */
  ghost predicate NextToFill(r: AreaMap, start: FlatKey, cls: int, fill: int, shape: int, cell: Snapshot, k: FlatKey) {
    && IsValidFlatGridPosition(k, shape)
    && exists c | c in r && r[c] == fill && Open(cell, cls, c) && Reaches(cell, cls, shape, start, c) ::
         k in CardinalNeighbors(c)
  }

  /**
   * What a flood fill from `start` guarantees about its result `r`: keys are
   * only added, and only in bounds or at the start; the start ends labelled
   * `fill` if open and -1 if not; every changed key is either labelled `fill`,
   * open and reachable from the start, or labelled -1 and blocked; every
   * changed key is the start or next to a key the fill reached (so nothing
   * away from the flood is touched); and every in-bounds neighbour of a newly
   * filled open key is itself labelled `fill` or blocked and labelled -1.
   */
  ghost predicate FillResult(areaMap: AreaMap, start: FlatKey, cls: int, fill: int, shape: int, cell: Snapshot,
                             r: AreaMap)
  {
    && areaMap.Keys <= r.Keys
    && (forall k | k in r && k !in areaMap :: k == start || IsValidFlatGridPosition(k, shape))
    && start in r && r[start] == (if Open(cell, cls, start) then fill else -1)
    && (forall k | k in r && (k !in areaMap || r[k] != areaMap[k]) ::
          (r[k] == fill && Open(cell, cls, k) && Reaches(cell, cls, shape, start, k)) || (r[k] == -1 && !Open(cell, cls, k)))
    && FillOrigins(areaMap, start, cls, fill, shape, cell, r)
    && FillClosure(areaMap, start, cls, fill, shape, cell, r)
  }

  /** Every key the fill changed is the start or next to a key it reached. */
  ghost predicate FillOrigins(areaMap: AreaMap, start: FlatKey, cls: int, fill: int, shape: int, cell: Snapshot,
                              r: AreaMap)
  {
    forall k | k in r && (k !in areaMap || r[k] != areaMap[k]) :: k == start || NextToFill(r, start, cls, fill, shape, cell, k)
  }

  /** Every in-bounds neighbour of a key the fill labelled is labelled too, or blocked at -1. */
  ghost predicate FillClosure(areaMap: AreaMap, start: FlatKey, cls: int, fill: int, shape: int, cell: Snapshot,
                              r: AreaMap)
  {
    forall c, n | c in r && r[c] == fill && Open(cell, cls, c) && (c == start || c !in areaMap || areaMap[c] != fill)
                  && n in CardinalNeighbors(c) && IsValidFlatGridPosition(n, shape) ::
      n in r && (r[n] == fill || (r[n] == -1 && !Open(cell, cls, n)))
  }

  /** A key the fill changed is labelled `fill`, open and reached, or -1 and blocked. */
  lemma FillChangedAt(areaMap: AreaMap, start: FlatKey, cls: int, fill: int, shape: int, cell: Snapshot, r: AreaMap,
                      k: FlatKey)
    requires FillResult(areaMap, start, cls, fill, shape, cell, r) && k in r
    ensures || (k in areaMap && r[k] == areaMap[k])
            || (r[k] == fill && Open(cell, cls, k) && Reaches(cell, cls, shape, start, k))
            || (r[k] == -1 && !Open(cell, cls, k))
  {
  }

  /** The closure of one key the fill labelled: its in-bounds neighbours are labelled too, or blocked. */
  lemma FillClosureAt(areaMap: AreaMap, start: FlatKey, cls: int, fill: int, shape: int, cell: Snapshot, r: AreaMap,
                      c: FlatKey, n: FlatKey)
    requires FillResult(areaMap, start, cls, fill, shape, cell, r)
    requires c in r && r[c] == fill && Open(cell, cls, c) && (c == start || c !in areaMap || areaMap[c] != fill)
    requires n in CardinalNeighbors(c) && IsValidFlatGridPosition(n, shape)
    ensures n in r && (r[n] == fill || (r[n] == -1 && !Open(cell, cls, n)))
  {
  }

  /**
   * The inner loop of `floodFillArea`: scans the neighbour list in order and
   * pushes each in-bounds key that is neither queued nor labelled `fill`.
   */
  method ScanNeighbors(neighbors: seq<FlatKey>, unexplored: seq<FlatKey>, unexploredSet: set<FlatKey>,
                       areaMap: AreaMap, indexToFill: int, shape: int)
    returns (stack: seq<FlatKey>, queued: set<FlatKey>)
    ensures stack == unexplored + Pushed(neighbors, unexploredSet, areaMap, indexToFill, shape)
    ensures queued == unexploredSet + (set n | n in Pushed(neighbors, unexploredSet, areaMap, indexToFill, shape))
  {
    stack, queued := unexplored, unexploredSet;
    var i := 0;
    while i < |neighbors|
      invariant 0 <= i <= |neighbors|
      invariant stack == unexplored + Pushed(neighbors[..i], unexploredSet, areaMap, indexToFill, shape)
      invariant queued == unexploredSet + (set n | n in Pushed(neighbors[..i], unexploredSet, areaMap, indexToFill, shape))
    {
      var adjacentPosition := neighbors[i];
      assert neighbors[..i + 1][..i] == neighbors[..i];
      if IsValidFlatGridPosition(adjacentPosition, shape) {
        if adjacentPosition !in queued && Get(areaMap, adjacentPosition) != Some(indexToFill) {
          stack := stack + [adjacentPosition];
          queued := queued + {adjacentPosition};
        }
      }
      i := i + 1;
    }
    assert neighbors[..|neighbors|] == neighbors;
  }

  /**
   * `floodFillArea`: a depth-first fill from `startPosition` with an explicit
   * stack and a set of the keys currently on it.  An open key is labelled
   * `indexToFill` and its in-bounds neighbours not queued and not yet labelled
   * `indexToFill` are pushed; a blocked key is labelled -1.
   */
  method FloodFillArea(areaMap: AreaMap, startPosition: FlatKey, testCollision: int, indexToFill: int,
                       shape: int, cell: Snapshot) returns (r: AreaMap)
    ensures FillResult(areaMap, startPosition, testCollision, indexToFill, shape, cell, r)
  {
    r := areaMap;
    var unexplored := [startPosition];
    var unexploredSet: set<FlatKey> := {startPosition};
    ghost var filled: set<FlatKey> := {};
    ghost var walks := map[startPosition := [startPosition]];
    ghost var u := ValidKeys(shape) + {startPosition};
    FillStarts(areaMap, startPosition, testCollision, indexToFill, shape, cell);
    while |unexplored| > 0
      invariant FillInv(areaMap, startPosition, testCollision, indexToFill, shape, cell, r, unexplored, unexploredSet, filled, walks)
      decreases |u - filled|, |unexplored|
    {
      var toExplore := unexplored[|unexplored| - 1];
      if IsGridDataPassable(cell(toExplore), testCollision) {
        FillStepOpen(areaMap, startPosition, testCollision, indexToFill, shape, cell, r, unexplored, unexploredSet, filled, walks);
        FillingShrinks(u, filled, toExplore);
        unexplored := unexplored[..|unexplored| - 1];
        unexploredSet := unexploredSet - {toExplore};
        r := r[toExplore := indexToFill];
        var neighbors := CardinalNeighbors(toExplore);
        ghost var queued0 := unexploredSet;
        unexplored, unexploredSet := ScanNeighbors(neighbors, unexplored, unexploredSet, r, indexToFill, shape);
        filled := filled + {toExplore};
        walks := walks + (map n | n in Pushed(neighbors, queued0, r, indexToFill, shape) :: walks[toExplore] + [n]);
      } else {
        FillStepBlocked(areaMap, startPosition, testCollision, indexToFill, shape, cell, r, unexplored, unexploredSet, filled, walks);
        unexplored := unexplored[..|unexplored| - 1];
        unexploredSet := unexploredSet - {toExplore};
        r := r[toExplore := -1];
      }
    }
    FillDone(areaMap, startPosition, testCollision, indexToFill, shape, cell, r, unexploredSet, filled, walks);
  }
}
