/**
 The bounded greedy diff of `align.rs`.

 A cell of the frontier array stands for one diagonal of the edit grid. The proof measures it by `Dist`: after
 the round for distance d the cell holds the last point of its diagonal that costs at most d, whether that point
 lies in the grid or not. The array is copied before every round, so that the walk back can be read off the copies.
 */
module Align {
  import opened Wrappers
  import opened EditDistance

  const MAX_EDIT_DISTANCE: nat := 512

  // ----- reading the frontier -----

  function SaturatingSub(a: nat, b: nat): nat {
    if a >= b then a - b else 0
  }

  /** Read one cell; out of range reads as 0. */
  function Cell(front: seq<nat>, index: nat): nat {
    if index < |front| then front[index] else 0
  }

  predicate CameFromDown(front: seq<nat>, kidx: nat, lo: nat, hi: nat) {
    kidx == lo || (kidx != hi && Cell(front, SaturatingSub(kidx, 1)) < Cell(front, kidx + 1))
  }

  /** Where the search enters diagonal `kidx`, one edit after the snapshot `front`. */
  function Entry(front: seq<nat>, kidx: nat, lo: nat, hi: nat): nat {
    if CameFromDown(front, kidx, lo, hi) then Cell(front, kidx + 1)
    else Cell(front, SaturatingSub(kidx, 1)) + 1
  }

  // ----- what a frontier means -----

  /** The item at `x` on diagonal `k` matches. */
  ghost predicate MatchAt<T>(src: seq<T>, dst: seq<T>, k: int, x: int) {
    0 <= x && k <= x && Match(src, dst, x, x - k)
  }

  /** All items of diagonal `k` from `lo` up to `hi` match. */
  ghost predicate MatchRun<T>(src: seq<T>, dst: seq<T>, k: int, lo: int, hi: int) {
    forall i :: lo <= i < hi ==> MatchAt(src, dst, k, i)
  }

  /** `x` is the furthest point of diagonal `k` within `d` edits. */
  ghost predicate Furthest<T>(src: seq<T>, dst: seq<T>, d: int, k: int, x: int) {
    0 <= x && k <= x && Dist(src, dst, x, x - k) <= d < Dist(src, dst, x + 1, x + 1 - k)
  }

  /** Every diagonal that `d` edits can end on is at its furthest point; before the search all cells are 0. */
  ghost predicate Level<T>(src: seq<T>, dst: seq<T>, front: seq<nat>, offset: nat, d: int) {
    && |front| == 2 * offset + 1
    && d <= offset
    && (d < 0 ==> forall i :: 0 <= i < |front| && i != offset ==> front[i] == 0)
    && (0 <= d ==> forall i :: OnPass(offset, d, i) ==> Furthest(src, dst, d, i - offset, front[i]))
  }

  /** Any point within `d` edits is at or before the furthest one of its diagonal. */
  lemma FurthestIsMaximal<T>(src: seq<T>, dst: seq<T>, d: int, k: int, x: int, x': nat)
    requires Furthest(src, dst, d, k, x)
    requires k <= x' && Dist(src, dst, x', x' - k) <= d
    ensures x' <= x
  {
    if x' > x {
      DiagonalMonotone(src, dst, k, x + 1, x');
    }
  }

  /** Past the furthest point the distance exceeds d. */
  lemma BeyondFurthest<T>(src: seq<T>, dst: seq<T>, d: int, k: int, x: int, x': nat)
    requires Furthest(src, dst, d, k, x)
    requires k <= x' && x < x'
    ensures Dist(src, dst, x', x' - k) > d
  {
    DiagonalMonotone(src, dst, k, x + 1, x');
  }

  /** The diagonal `kidx` is one that exactly `dist` edits can end on. */
  ghost predicate OnPass(offset: nat, dist: nat, kidx: int) {
    offset - dist <= kidx <= offset + dist && (kidx - offset - dist) % 2 == 0
  }

  /** One edit from the furthest point of the diagonal above, by an insert. */
  lemma {:induction false} InsertFromAbove<T>(src: seq<T>, dst: seq<T>, dist: nat, k: int, x: nat)
    requires dist > 0 && Furthest(src, dst, dist - 1, k + 1, x)
    ensures k <= x && Dist(src, dst, x, x - k) <= dist
  {
    Lipschitz(src, dst, x, x - (k + 1));
  }

  /** One edit from the furthest point of the diagonal below, by a delete. */
  lemma {:induction false} DeleteFromBelow<T>(src: seq<T>, dst: seq<T>, dist: nat, k: int, x: nat)
    requires dist > 0 && Furthest(src, dst, dist - 1, k - 1, x)
    ensures k <= x + 1 && Dist(src, dst, x + 1, x + 1 - k) <= dist
  {
    Lipschitz(src, dst, x, x - (k - 1));
  }

  /** The entry point of diagonal `kidx` costs at most `dist`. */
  lemma {:induction false} EntryWithin<T>(src: seq<T>, dst: seq<T>, front: seq<nat>, offset: nat, dist: nat, kidx: nat)
    requires dist <= offset && Level(src, dst, front, offset, dist - 1) && OnPass(offset, dist, kidx)
    ensures var k, x := kidx - offset, Entry(front, kidx, offset - dist, offset + dist);
      k <= x && Dist(src, dst, x, x - k) <= dist
  {
    if dist > 0 {
      if CameFromDown(front, kidx, offset - dist, offset + dist) {
        InsertFromAbove(src, dst, dist, kidx - offset, front[kidx + 1]);
      } else {
        DeleteFromBelow(src, dst, dist, kidx - offset, front[kidx - 1]);
      }
    }
  }

  /** Below a point past the entry, the neighbour on the next diagonal costs `dist` or more. */
  lemma {:induction false} BelowIsDear<T>(src: seq<T>, dst: seq<T>, front: seq<nat>, offset: nat, dist: nat, kidx: nat, x: nat)
    requires 0 < dist <= offset && Level(src, dst, front, offset, dist - 1) && OnPass(offset, dist, kidx)
    requires kidx - offset <= x && Entry(front, kidx, offset - dist, offset + dist) <= x
    ensures Dist(src, dst, x, x - (kidx - offset) + 1) >= dist
  {
    if kidx > offset - dist {
      BeyondFurthest(src, dst, dist - 1, kidx - offset - 1, front[kidx - 1], x);
    } else {
      DistBounds(src, dst, x, x - (kidx - offset) + 1);
    }
  }

  /** So does the neighbour to its right. */
  lemma {:induction false} RightIsDear<T>(src: seq<T>, dst: seq<T>, front: seq<nat>, offset: nat, dist: nat, kidx: nat, x: nat)
    requires 0 < dist <= offset && Level(src, dst, front, offset, dist - 1) && OnPass(offset, dist, kidx)
    requires kidx - offset <= x && Entry(front, kidx, offset - dist, offset + dist) <= x
    ensures Dist(src, dst, x + 1, x - (kidx - offset)) >= dist
  {
    if kidx < offset + dist {
      BeyondFurthest(src, dst, dist - 1, kidx - offset + 1, front[kidx + 1], x + 1);
    } else {
      DistBounds(src, dst, x + 1, x - (kidx - offset));
    }
  }

  /** The greedy step: from the entry on, a diagonal step stays within `dist` only along a match. */
  lemma EntryIsGreedy<T>(src: seq<T>, dst: seq<T>, front: seq<nat>, offset: nat, dist: nat, kidx: nat, x: nat)
    requires dist <= offset && Level(src, dst, front, offset, dist - 1) && OnPass(offset, dist, kidx)
    requires kidx - offset <= x && Entry(front, kidx, offset - dist, offset + dist) <= x
    requires !MatchAt(src, dst, kidx - offset, x)
    ensures Dist(src, dst, x + 1, x + 1 - (kidx - offset)) > dist
  {
    if dist > 0 {
      BelowIsDear(src, dst, front, offset, dist, kidx, x);
      RightIsDear(src, dst, front, offset, dist, kidx, x);
    }
  }

  /** The cells below `kidx` are settled for this pass and none of them is at or beyond the far corner. */
  ghost predicate Settled<T>(src: seq<T>, dst: seq<T>, front: seq<nat>, offset: nat, dist: nat, kidx: int) {
    && |front| == 2 * offset + 1 && dist <= offset
    && forall i :: i < kidx && OnPass(offset, dist, i) ==>
         Furthest(src, dst, dist, i - offset, front[i]) && (front[i] < |src| || front[i] - (i - offset) < |dst|)
  }

  lemma {:induction false} CornerParity<T>(src: seq<T>, dst: seq<T>, offset: nat)
    requires Dist(src, dst, |src|, |dst|) <= offset
    ensures OnPass(offset, Dist(src, dst, |src|, |dst|), offset + |src| - |dst|)
  {
    DistBounds(src, dst, |src|, |dst|);
    DistParity(src, dst, |src|, |dst|);
  }

  lemma {:induction false} CornerOnFrontier<T>(src: seq<T>, dst: seq<T>, front: seq<nat>, offset: nat, dist: nat)
    requires Level(src, dst, front, offset, dist) && 0 <= dist && Dist(src, dst, |src|, |dst|) <= dist
    requires OnPass(offset, dist, offset + |src| - |dst|)
    ensures |src| <= front[offset + |src| - |dst|]
  {
    var k := |src| - |dst|;
    FurthestIsMaximal(src, dst, dist, k, front[offset + k], |src|);
  }

  /** A whole pass that never reached the far corner leaves it out of reach of `dist` edits. */
  lemma {:induction false} PassMissedCorner<T>(src: seq<T>, dst: seq<T>, front: seq<nat>, offset: nat, dist: nat)
    requires Settled(src, dst, front, offset, dist, offset + dist + 1)
    requires Dist(src, dst, |src|, |dst|) >= dist
    ensures Level(src, dst, front, offset, dist) && Dist(src, dst, |src|, |dst|) > dist
  {
    assert Level(src, dst, front, offset, dist);
    if Dist(src, dst, |src|, |dst|) == dist {
      CornerParity(src, dst, offset);
      CornerOnFrontier(src, dst, front, offset, dist);
    }
  }

  /** The first point at or beyond the far corner is the corner itself. */
  lemma {:induction false} FirstHitIsCorner<T>(src: seq<T>, dst: seq<T>, dist: nat, k: int, x: nat)
    requires Furthest(src, dst, dist, k, x) && dist <= Dist(src, dst, |src|, |dst|)
    requires |src| <= x && |dst| <= x - k
    ensures x == |src| && x - k == |dst| && Dist(src, dst, |src|, |dst|) == dist
  {
    Outside(src, dst, x, x - k);
  }

  // ----- the search -----

  /** Slides from (x, y) along matching items. */
  method Slide<T(==)>(src: seq<T>, dst: seq<T>, x: nat, y: nat) returns (oldi: nat, newi: nat)
    ensures x <= oldi && newi - y == oldi - x
    ensures Dist(src, dst, oldi, newi) == Dist(src, dst, x, y)
    ensures !Match(src, dst, oldi, newi)
    ensures MatchRun(src, dst, x - y, x, oldi)
  {
    oldi, newi := x, y;
    while oldi < |src| && newi < |dst| && src[oldi] == dst[newi]
      invariant x <= oldi && newi - y == oldi - x
      invariant Dist(src, dst, oldi, newi) == Dist(src, dst, x, y)
      invariant MatchRun(src, dst, x - y, x, oldi)
    {
      oldi, newi := oldi + 1, newi + 1;
    }
  }

  /** Moves diagonal `kidx` to its furthest point within `dist` edits. */
  method Advance<T(==)>(src: seq<T>, dst: seq<T>, front: seq<nat>, offset: nat, dist: nat, kidx: nat)
    returns (oldi: nat, newi: nat)
    requires dist <= offset && Level(src, dst, front, offset, dist - 1) && OnPass(offset, dist, kidx)
    ensures Furthest(src, dst, dist, kidx - offset, oldi) && newi == oldi - (kidx - offset)
  {
    EntryWithin(src, dst, front, offset, dist, kidx);
    var x := Entry(front, kidx, offset - dist, offset + dist);
    oldi, newi := Slide(src, dst, x, SaturatingSub(x + offset, kidx));
    EntryIsGreedy(src, dst, front, offset, dist, kidx, oldi);
  }

  /**
   One round of the search: moves every diagonal that `dist` edits can end on to its furthest point,
   and stops early when the far corner is reached.
   */
  method Pass<T(==)>(src: seq<T>, dst: seq<T>, front: array<nat>, offset: nat, dist: nat) returns (hit: bool)
    requires dist <= offset && Level(src, dst, front[..], offset, dist - 1)
    requires dist <= Dist(src, dst, |src|, |dst|)
    modifies front
    ensures hit ==> Furthest(src, dst, dist, |src| - |dst|, |src|) && (|src| - |dst| - dist) % 2 == 0
    ensures hit ==> Dist(src, dst, |src|, |dst|) == dist
    ensures !hit ==> Level(src, dst, front[..], offset, dist) && Dist(src, dst, |src|, |dst|) > dist
  {
    var kidx := offset - dist;
    while kidx <= offset + dist
      invariant Passing(src, dst, front[..], offset, dist, kidx)
    {
      ghost var before: seq<nat> := front[..];
      var oldi, newi := Advance(src, dst, front[..], offset, dist, kidx);
      front[kidx] := oldi;
      if oldi >= |src| && newi >= |dst| {
        FirstHitIsCorner(src, dst, dist, kidx - offset, oldi);
        return true;
      }
      assert front[..] == before[kidx := oldi];
      PassedOneMore(src, dst, before, offset, dist, kidx, oldi);
      kidx := kidx + 2;
    }
    PassMissedCorner(src, dst, front[..], offset, dist);
    return false;
  }

  /** A round that has come to `kidx`: the cells before it are settled, those of the last round are in place. */
  ghost predicate Passing<T>(src: seq<T>, dst: seq<T>, front: seq<nat>, offset: nat, dist: nat, kidx: nat) {
    && dist <= offset && offset - dist <= kidx <= offset + dist + 2 && (kidx - offset - dist) % 2 == 0
    && Level(src, dst, front, offset, dist - 1) && Settled(src, dst, front, offset, dist, kidx)
  }

  lemma {:induction false} PassedOneMore<T>(src: seq<T>, dst: seq<T>, front: seq<nat>, offset: nat, dist: nat, kidx: nat, x: nat)
    requires Passing(src, dst, front, offset, dist, kidx) && kidx <= offset + dist
    requires Furthest(src, dst, dist, kidx - offset, x) && (x < |src| || x - (kidx - offset) < |dst|)
    ensures Passing(src, dst, front[kidx := x], offset, dist, kidx + 2)
  {
  }

  /**
   The shortest edit script, or nothing when even the shortest one has more than 512 Delete and Insert steps.
   */
  method Align<T(==)>(src: seq<T>, dst: seq<T>) returns (r: Option<seq<Step>>)
    ensures r.Some? ==> IsScript(src, dst, r.value) && Cost(r.value) <= 512
    ensures r.Some? ==> Cost(r.value) == Dist(src, dst, |src|, |dst|)
    ensures r.Some? ==> forall s :: IsScript(src, dst, s) ==> Cost(r.value) <= Cost(s)
    ensures r.Some? <==> Dist(src, dst, |src|, |dst|) <= 512
    ensures r.None? <==> forall s :: IsScript(src, dst, s) ==> Cost(s) > 512
  {
    var maxDist := if |src| + |dst| <= MAX_EDIT_DISTANCE then |src| + |dst| else MAX_EDIT_DISTANCE;
    var offset := maxDist;
    var front := new nat[2 * maxDist + 1](_ => 0);
    var trace: seq<seq<nat>> := [];
    for dist := 0 to maxDist + 1
      invariant |trace| == dist
      invariant forall d :: 0 <= d < dist ==> Level(src, dst, trace[d], offset, d - 1)
      invariant Level(src, dst, front[..], offset, dist - 1)
      invariant dist <= Dist(src, dst, |src|, |dst|)
    {
      trace := trace + [front[..]];
      var hit := Pass(src, dst, front, offset, dist);
      if hit {
        var steps := Backtrack(src, dst, trace, offset, dist, |src|, |dst|);
        AlignIsOptimal(src, dst, steps);
        return Some(steps);
      }
    }
    DistBounds(src, dst, |src|, |dst|);
    forall s | IsScript(src, dst, s) ensures Cost(s) > MAX_EDIT_DISTANCE {
      ScriptCostsAtLeast(src, dst, s, 0, 0);
    }
    return None;
  }

  lemma {:induction false} AlignIsOptimal<T>(src: seq<T>, dst: seq<T>, steps: seq<Step>)
    requires Cost(steps) == Dist(src, dst, |src|, |dst|)
    ensures forall s :: IsScript(src, dst, s) ==> Cost(steps) <= Cost(s)
  {
    forall s | IsScript(src, dst, s) ensures Cost(steps) <= Cost(s) {
      ScriptCostsAtLeast(src, dst, s, 0, 0);
    }
  }

  // ----- rebuilding the script -----

  function Reverse<T>(s: seq<T>): (r: seq<T>)
    ensures |r| == |s|
  {
    if s == [] then [] else [s[|s| - 1]] + Reverse(s[..|s| - 1])
  }

  lemma {:induction false} ReversePush<T>(s: seq<T>, x: T)
    ensures Reverse(s + [x]) == [x] + Reverse(s)
  {
    assert (s + [x])[..|s|] == s;
  }

  /**
   Stepping back from the furthest point of diagonal `kidx` at distance `dist`: the entry point lies
   on the way, and everything between the two is a match.
   */
  lemma EntryIsBehind<T>(src: seq<T>, dst: seq<T>, front: seq<nat>, offset: nat, dist: nat, x: nat, y: nat)
    requires dist <= offset && Level(src, dst, front, offset, dist - 1)
    requires Furthest(src, dst, dist, x - y, x) && (x - y - dist) % 2 == 0
    ensures offset - dist <= offset + x - y <= offset + dist
    ensures var e := Entry(front, offset + x - y, offset - dist, offset + dist);
      x - y <= e <= x && MatchRun(src, dst, x - y, e, x)
  {
    DistBounds(src, dst, x, y);
    EntryBefore(src, dst, front, offset, dist, offset + x - y, x);
  }

  lemma {:induction false} EntryBefore<T>(src: seq<T>, dst: seq<T>, front: seq<nat>, offset: nat, dist: nat, kidx: nat, x: nat)
    requires dist <= offset && Level(src, dst, front, offset, dist - 1) && OnPass(offset, dist, kidx)
    requires Furthest(src, dst, dist, kidx - offset, x)
    ensures var e := Entry(front, kidx, offset - dist, offset + dist);
      kidx - offset <= e <= x && MatchRun(src, dst, kidx - offset, e, x)
  {
    EntryWithin(src, dst, front, offset, dist, kidx);
    var e := Entry(front, kidx, offset - dist, offset + dist);
    var k := kidx - offset;
    FurthestIsMaximal(src, dst, dist, k, x, e);
    forall i | e <= i < x ensures MatchAt(src, dst, k, i) {
      OnlyMatchesBetween(src, dst, front, offset, dist, kidx, i, x);
    }
  }

  lemma {:induction false} OnlyMatchesBetween<T>(src: seq<T>, dst: seq<T>, front: seq<nat>, offset: nat, dist: nat, kidx: nat,
                                                 i: nat, x: nat)
    requires dist <= offset && Level(src, dst, front, offset, dist - 1) && OnPass(offset, dist, kidx)
    requires kidx - offset <= i < x && Entry(front, kidx, offset - dist, offset + dist) <= i
    requires Dist(src, dst, x, x - (kidx - offset)) <= dist
    ensures MatchAt(src, dst, kidx - offset, i)
  {
    DiagonalMonotone(src, dst, kidx - offset, i + 1, x);
    if !MatchAt(src, dst, kidx - offset, i) {
      EntryIsGreedy(src, dst, front, offset, dist, kidx, i);
    }
  }

  /** The snapshot cell the entry of diagonal `kidx` came from is itself a furthest point, one edit earlier. */
  lemma EntryCameFrom<T>(src: seq<T>, dst: seq<T>, front: seq<nat>, offset: nat, dist: nat, kidx: nat)
    requires 0 < dist <= offset && Level(src, dst, front, offset, dist - 1)
    requires OnPass(offset, dist, kidx)
    ensures var prev := if CameFromDown(front, kidx, offset - dist, offset + dist) then kidx + 1 else kidx - 1;
      0 <= prev < |front| && (prev - offset - dist + 1) % 2 == 0
      && Furthest(src, dst, dist - 1, prev - offset, front[prev])
  {
  }

  /** Emits the matches from (x, y) back to the point where one of the indices is at its stop. */
  method SlideBack<T>(ghost src: seq<T>, ghost dst: seq<T>, x: nat, y: nat, stopX: nat, stopY: nat, pushed: seq<Step>)
    returns (oldi: nat, newi: nat, steps: seq<Step>)
    requires stopX <= x && stopY <= y
    requires ScriptFrom(src, dst, Reverse(pushed), x, y)
    requires MatchRun(src, dst, x - y, EditDistance.Max(stopX, stopY + x - y), x)
    ensures oldi - newi == x - y && stopX <= oldi && stopY <= newi && (oldi == stopX || newi == stopY)
    ensures ScriptFrom(src, dst, Reverse(steps), oldi, newi) && Cost(Reverse(steps)) == Cost(Reverse(pushed))
  {
    oldi, newi, steps := x, y, pushed;
    while oldi > stopX && newi > stopY
      invariant stopX <= oldi <= x && stopY <= newi && oldi - newi == x - y
      invariant ScriptFrom(src, dst, Reverse(steps), oldi, newi) && Cost(Reverse(steps)) == Cost(Reverse(pushed))
    {
      oldi, newi := oldi - 1, newi - 1;
      assert MatchAt(src, dst, x - y, oldi);
      ReversePush(steps, Equal(oldi, newi));
      steps := steps + [Equal(oldi, newi)];
    }
  }

  /**
   The furthest point (x, y) at distance `dist` came from (px, py): that is a furthest point one edit earlier, on the
   diagonal above or below, and all between the two is a match. At distance 0 it came from the start.
   */
  ghost predicate Stepped<T>(src: seq<T>, dst: seq<T>, dist: nat, x: nat, y: nat, down: bool, px: nat, py: nat) {
    && px <= x && py <= y && MatchRun(src, dst, x - y, EditDistance.Max(px, py + x - y), x)
    && (dist > 0 ==> Furthest(src, dst, dist - 1, px - py, px))
    && (dist > 0 ==> px - py == (if down then x - y + 1 else x - y - 1) && if down then py < y else px < x)
    && (dist == 0 ==> px == 0 && py == 0 && x == y)
  }

  /** Stepping back over a snapshot: the cell that the entry came from. */
  lemma {:induction false} StepBack<T>(src: seq<T>, dst: seq<T>, front: seq<nat>, offset: nat, dist: nat, x: nat, y: nat)
    requires 0 < dist <= offset && Level(src, dst, front, offset, dist - 1)
    requires Furthest(src, dst, dist, x - y, x) && (x - y - dist) % 2 == 0
    ensures OnPass(offset, dist, offset + x - y)
    ensures var kidx := offset + x - y;
      var down := CameFromDown(front, kidx, offset - dist, offset + dist);
      var prev := if down then kidx + 1 else SaturatingSub(kidx, 1);
      Stepped(src, dst, dist, x, y, down, Cell(front, prev), SaturatingSub(Cell(front, prev) + offset, prev))
  {
    EntryIsBehind(src, dst, front, offset, dist, x, y);
    EntryCameFrom(src, dst, front, offset, dist, offset + x - y);
  }

  /** With no edits left the walk is one run of matches from the start of both sequences. */
  lemma {:induction false} StepBackToStart<T>(src: seq<T>, dst: seq<T>, front: seq<nat>, offset: nat, x: nat, y: nat)
    requires Level(src, dst, front, offset, -1) && Furthest(src, dst, 0, x - y, x)
    requires (x - y) % 2 == 0
    ensures x == y && Cell(front, offset + 1) == 0 && Stepped(src, dst, 0, x, y, true, 0, 0)
  {
    EntryIsBehind(src, dst, front, offset, 0, x, y);
  }

  /** Pushing an edit extends the script by one step at its front, at a cost of one. */
  lemma PushEdit<T>(src: seq<T>, dst: seq<T>, steps: seq<Step>, x: nat, y: nat, down: bool)
    requires ScriptFrom(src, dst, Reverse(steps), x, y) && (if down then y > 0 else x > 0)
    ensures down ==> ScriptFrom(src, dst, Reverse(steps + [Insert(y - 1)]), x, y - 1)
    ensures down ==> Cost(Reverse(steps + [Insert(y - 1)])) == Cost(Reverse(steps)) + 1
    ensures !down ==> ScriptFrom(src, dst, Reverse(steps + [Delete(x - 1)]), x - 1, y)
    ensures !down ==> Cost(Reverse(steps + [Delete(x - 1)])) == Cost(Reverse(steps)) + 1
  {
    ScriptFromIndices(src, dst, Reverse(steps), x, y);
    if down {
      ReversePush(steps, Insert(y - 1));
    } else {
      ReversePush(steps, Delete(x - 1));
    }
  }

  /** Reads from the snapshot which point the furthest point (x, y) at distance `dist` came from. */
  method Origin<T>(ghost src: seq<T>, ghost dst: seq<T>, front: seq<nat>, offset: nat, dist: nat, x: nat, y: nat)
    returns (down: bool, prevOld: nat, prevNew: nat)
    requires dist <= offset && Level(src, dst, front, offset, dist - 1)
    requires Furthest(src, dst, dist, x - y, x) && (x - y - dist) % 2 == 0
    ensures Stepped(src, dst, dist, x, y, down, prevOld, prevNew)
  {
    if dist > 0 {
      StepBack(src, dst, front, offset, dist, x, y);
    } else {
      StepBackToStart(src, dst, front, offset, x, y);
    }
    var kidx := offset + x - y;
    down := CameFromDown(front, kidx, offset - dist, offset + dist);
    var prevKidx := if down then kidx + 1 else SaturatingSub(kidx, 1);
    prevOld := Cell(front, prevKidx);
    prevNew := SaturatingSub(prevOld + offset, prevKidx);
  }

  /** The part of the walk that `dist` edits reached but `dist - 1` did not, back to the snapshot before it. */
  method Unwind<T>(ghost src: seq<T>, ghost dst: seq<T>, front: seq<nat>, offset: nat, dist: nat,
                   x: nat, y: nat, pushed: seq<Step>)
    returns (oldi: nat, newi: nat, steps: seq<Step>)
    requires dist <= offset && Level(src, dst, front, offset, dist - 1)
    requires Furthest(src, dst, dist, x - y, x) && (x - y - dist) % 2 == 0
    requires ScriptFrom(src, dst, Reverse(pushed), x, y)
    ensures ScriptFrom(src, dst, Reverse(steps), oldi, newi)
    ensures dist > 0 ==> Cost(Reverse(steps)) == Cost(Reverse(pushed)) + 1
    ensures dist > 0 ==> Furthest(src, dst, dist - 1, oldi - newi, oldi) && (oldi - newi - dist + 1) % 2 == 0
    ensures dist == 0 ==> oldi == 0 && newi == 0 && Cost(Reverse(steps)) == Cost(Reverse(pushed))
  {
    var down, prevOld, prevNew := Origin(src, dst, front, offset, dist, x, y);
    oldi, newi, steps := SlideBack(src, dst, x, y, prevOld, prevNew, pushed);
    if dist > 0 {
      oldi, newi, steps := EmitEdit(src, dst, oldi, newi, down, steps);
    }
  }

  /** Emits the edit that led to (x, y). */
  method EmitEdit<T>(ghost src: seq<T>, ghost dst: seq<T>, x: nat, y: nat, down: bool, pushed: seq<Step>)
    returns (oldi: nat, newi: nat, steps: seq<Step>)
    requires ScriptFrom(src, dst, Reverse(pushed), x, y) && (if down then y > 0 else x > 0)
    ensures oldi == (if down then x else x - 1) && newi == (if down then y - 1 else y)
    ensures ScriptFrom(src, dst, Reverse(steps), oldi, newi) && Cost(Reverse(steps)) == Cost(Reverse(pushed)) + 1
  {
    PushEdit(src, dst, pushed, x, y, down);
    if down {
      return x, y - 1, pushed + [Insert(y - 1)];
    } else {
      return x - 1, y, pushed + [Delete(x - 1)];
    }
  }

  /** Walks the snapshots back from the far corner, emitting the script that led there. */
  method Backtrack<T>(ghost src: seq<T>, ghost dst: seq<T>, trace: seq<seq<nat>>, offset: nat, lastDist: nat,
                      srcLen: nat, dstLen: nat)
    returns (steps: seq<Step>)
    requires srcLen == |src| && dstLen == |dst|
    requires lastDist <= offset && lastDist < |trace|
    requires forall d :: 0 <= d <= lastDist ==> Level(src, dst, trace[d], offset, d - 1)
    requires Furthest(src, dst, lastDist, srcLen - dstLen, srcLen) && (srcLen - dstLen - lastDist) % 2 == 0
    ensures IsScript(src, dst, steps) && Cost(steps) == lastDist
  {
    steps := [];
    var oldi: nat, newi: nat := srcLen, dstLen;
    for dist := lastDist + 1 downto 0
      invariant ScriptFrom(src, dst, Reverse(steps), oldi, newi)
      invariant dist > 0 ==> Cost(Reverse(steps)) == lastDist + 1 - dist
      invariant dist > 0 ==> Furthest(src, dst, dist - 1, oldi - newi, oldi) && (oldi - newi - dist + 1) % 2 == 0
      invariant dist == 0 ==> oldi == 0 && newi == 0 && Cost(Reverse(steps)) == lastDist
    {
      oldi, newi, steps := Unwind(src, dst, trace[dist], offset, dist, oldi, newi, steps);
    }
    steps := Reverse(steps);
  }

  /** The fallback script: delete every source item, then insert every wanted one. */
  method ReplaceAll<T>(ghost src: seq<T>, ghost dst: seq<T>, srcLen: nat, dstLen: nat) returns (steps: seq<Step>)
    requires srcLen == |src| && dstLen == |dst|
    ensures IsScript(src, dst, steps)
    ensures CountDeletes(steps) == srcLen && CountInserts(steps) == dstLen
  {
    steps := seq(srcLen, i requires 0 <= i => Delete(i)) + seq(dstLen, i requires 0 <= i => Insert(i));
    ReplaceAllScript(src, dst, steps, 0, 0);
  }

  lemma {:induction false} ReplaceAllScript<T>(src: seq<T>, dst: seq<T>, s: seq<Step>, x: nat, y: nat)
    requires x <= |src| && y <= |dst| && (x < |src| ==> y == 0)
    requires s == seq(|src| - x, i requires 0 <= i => Delete(x + i)) + seq(|dst| - y, i requires 0 <= i => Insert(y + i))
    ensures ScriptFrom(src, dst, s, x, y)
    ensures CountDeletes(s) == |src| - x && CountInserts(s) == |dst| - y
    decreases |s|
  {
    if x < |src| {
      assert s[1..] == seq(|src| - (x + 1), i requires 0 <= i => Delete(x + 1 + i)) + seq(|dst| - y, i requires 0 <= i => Insert(y + i));
      ReplaceAllScript(src, dst, s[1..], x + 1, y);
    } else if y < |dst| {
      assert s[1..] == seq(|src| - x, i requires 0 <= i => Delete(x + i)) + seq(|dst| - (y + 1), i requires 0 <= i => Insert(y + 1 + i));
      ReplaceAllScript(src, dst, s[1..], x, y + 1);
    }
  }
}
