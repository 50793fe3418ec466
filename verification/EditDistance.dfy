/**
 Edit scripts and the distance they are measured by.

 A script walks from the corner (0, 0) of the edit grid to (|src|, |dst|). `Dist` is the
 number of Delete and Insert steps needed to reach a grid point; it is defined on the whole
 quadrant, where nothing matches outside the grid, because the greedy search visits such points.
 */
module EditDistance {

  datatype Step = Equal(src: nat, dst: nat) | Delete(src: nat) | Insert(dst: nat)

  /** `s` is an edit script from the grid point (x, y) to (|src|, |dst|). */
  ghost predicate ScriptFrom<T>(src: seq<T>, dst: seq<T>, s: seq<Step>, x: nat, y: nat)
    decreases |s|
  {
    if s == [] then x == |src| && y == |dst|
    else match s[0]
      case Equal(o, n) =>
        o == x < |src| && n == y < |dst| && src[x] == dst[y] && ScriptFrom(src, dst, s[1..], x + 1, y + 1)
      case Delete(o) => o == x < |src| && ScriptFrom(src, dst, s[1..], x + 1, y)
      case Insert(n) => n == y < |dst| && ScriptFrom(src, dst, s[1..], x, y + 1)
  }

  ghost predicate IsScript<T>(src: seq<T>, dst: seq<T>, s: seq<Step>) {
    ScriptFrom(src, dst, s, 0, 0)
  }

  /** The number of Delete and Insert steps. */
  function Cost(s: seq<Step>): nat {
    if s == [] then 0 else (if s[0].Equal? then 0 else 1) + Cost(s[1..])
  }

  function CountDeletes(s: seq<Step>): nat {
    if s == [] then 0 else (if s[0].Delete? then 1 else 0) + CountDeletes(s[1..])
  }

  function CountInserts(s: seq<Step>): nat {
    if s == [] then 0 else (if s[0].Insert? then 1 else 0) + CountInserts(s[1..])
  }

  /** The src indices a script names, in order. */
  function OldIndices(s: seq<Step>): seq<nat> {
    if s == [] then []
    else (if s[0].Insert? then [] else [s[0].src]) + OldIndices(s[1..])
  }

  /** The dst indices a script names, in order. */
  function NewIndices(s: seq<Step>): seq<nat> {
    if s == [] then []
    else (if s[0].Delete? then [] else [s[0].dst]) + NewIndices(s[1..])
  }

  /** The items left after carrying out `s`: kept items come from `src`, added ones from `dst`. */
  ghost function Replay<T>(src: seq<T>, dst: seq<T>, s: seq<Step>): seq<T>
    requires InBounds(src, dst, s)
  {
    if s == [] then []
    else
      (match s[0]
       case Equal(o, _) => [src[o]]
       case Delete(_) => []
       case Insert(n) => [dst[n]]) + Replay(src, dst, s[1..])
  }

  function Range(lo: nat, hi: nat): (r: seq<nat>)
    requires lo <= hi
    ensures |r| == hi - lo && forall i :: 0 <= i < |r| ==> r[i] == lo + i
  {
    seq(hi - lo, i requires 0 <= i => lo + i)
  }

  ghost predicate InBounds<T>(src: seq<T>, dst: seq<T>, s: seq<Step>) {
    forall i :: 0 <= i < |s| ==>
      (s[i].Insert? || s[i].src < |src|) && (s[i].Delete? || s[i].dst < |dst|)
  }

  lemma {:induction false} ScriptFromInBounds<T>(src: seq<T>, dst: seq<T>, s: seq<Step>, x: nat, y: nat)
    requires ScriptFrom(src, dst, s, x, y)
    ensures InBounds(src, dst, s)
    decreases |s|
  {
    if s != [] {
      ScriptFromInBounds(src, dst, s[1..], NextX(s[0], x), NextY(s[0], y));
      assert forall i :: 0 < i < |s| ==> s[i] == s[1..][i - 1];
    }
  }

  ghost function NextX(st: Step, x: nat): nat {
    if st.Insert? then x else x + 1
  }

  ghost function NextY(st: Step, y: nat): nat {
    if st.Delete? then y else y + 1
  }

  lemma {:induction false} ScriptFromIndices<T>(src: seq<T>, dst: seq<T>, s: seq<Step>, x: nat, y: nat)
    requires ScriptFrom(src, dst, s, x, y)
    ensures x <= |src| && y <= |dst|
    ensures OldIndices(s) == Range(x, |src|) && NewIndices(s) == Range(y, |dst|)
    decreases |s|
  {
    if s != [] {
      ScriptFromIndices(src, dst, s[1..], NextX(s[0], x), NextY(s[0], y));
      if !s[0].Insert? {
        assert Range(x, |src|) == [x] + Range(x + 1, |src|);
      }
      if !s[0].Delete? {
        assert Range(y, |dst|) == [y] + Range(y + 1, |dst|);
      }
    }
  }

  lemma {:induction false} ScriptFromReplays<T>(src: seq<T>, dst: seq<T>, s: seq<Step>, x: nat, y: nat)
    requires ScriptFrom(src, dst, s, x, y) && y <= |dst|
    ensures InBounds(src, dst, s) && Replay(src, dst, s) == dst[y..]
    decreases |s|
  {
    ScriptFromInBounds(src, dst, s, x, y);
    if s != [] {
      ScriptFromReplays(src, dst, s[1..], NextX(s[0], x), NextY(s[0], y));
      if !s[0].Delete? {
        assert dst[y..] == [dst[y]] + dst[y + 1..];
      }
    }
  }

  lemma {:induction false} ScriptFromCounts<T>(src: seq<T>, dst: seq<T>, s: seq<Step>, x: nat, y: nat)
    requires ScriptFrom(src, dst, s, x, y)
    ensures |src| - x - CountDeletes(s) == |dst| - y - CountInserts(s)
    ensures Cost(s) == CountDeletes(s) + CountInserts(s)
    decreases |s|
  {
    if s != [] {
      ScriptFromCounts(src, dst, s[1..], NextX(s[0], x), NextY(s[0], y));
    }
  }

  /** What `align` documents about a script, for any script of the grid. */
  lemma {:induction false} ScriptMeaning<T>(src: seq<T>, dst: seq<T>, s: seq<Step>)
    requires IsScript(src, dst, s)
    ensures InBounds(src, dst, s)
    ensures OldIndices(s) == Range(0, |src|) && NewIndices(s) == Range(0, |dst|)
    ensures Replay(src, dst, s) == dst
    ensures Cost(s) == CountDeletes(s) + CountInserts(s)
    ensures |src| - CountDeletes(s) == |dst| - CountInserts(s)
  {
    ScriptFromIndices(src, dst, s, 0, 0);
    ScriptFromReplays(src, dst, s, 0, 0);
    ScriptFromCounts(src, dst, s, 0, 0);
  }

  // ----- the distance -----

  ghost predicate Match<T>(src: seq<T>, dst: seq<T>, x: nat, y: nat) {
    x < |src| && y < |dst| && src[x] == dst[y]
  }

  ghost function Min(a: int, b: int): int {
    if a <= b then a else b
  }

  ghost function Dist<T>(src: seq<T>, dst: seq<T>, x: nat, y: nat): nat {
    if x == 0 then y
    else if y == 0 then x
    else if Match(src, dst, x - 1, y - 1) then Dist(src, dst, x - 1, y - 1)
    else 1 + Min(Dist(src, dst, x - 1, y), Dist(src, dst, x, y - 1))
  }

  /** Neighbouring grid points differ by at most one. */
  lemma {:induction false} Lipschitz<T>(src: seq<T>, dst: seq<T>, x: nat, y: nat)
    ensures -1 <= Dist(src, dst, x + 1, y) - Dist(src, dst, x, y) <= 1
    ensures -1 <= Dist(src, dst, x, y + 1) - Dist(src, dst, x, y) <= 1
    decreases x + y
  {
    if y > 0 {
      Lipschitz(src, dst, x, y - 1);
    }
    if x > 0 {
      Lipschitz(src, dst, x - 1, y);
    }
  }

  /** The distance never shrinks along a diagonal. */
  lemma DiagonalStep<T>(src: seq<T>, dst: seq<T>, x: nat, y: nat)
    ensures Dist(src, dst, x, y) <= Dist(src, dst, x + 1, y + 1)
  {
    Lipschitz(src, dst, x, y);
  }

  lemma {:induction false} DiagonalMonotone<T>(src: seq<T>, dst: seq<T>, k: int, x: nat, x': nat)
    requires k <= x <= x'
    ensures Dist(src, dst, x, x - k) <= Dist(src, dst, x', x' - k)
    decreases x' - x
  {
    if x < x' {
      DiagonalStep(src, dst, x, x - k);
      DiagonalMonotone(src, dst, k, x + 1, x');
    }
  }

  /** Off the main diagonal by k costs at least |k|. */
  lemma {:induction false} DistBounds<T>(src: seq<T>, dst: seq<T>, x: nat, y: nat)
    ensures Dist(src, dst, x, y) >= x - y && Dist(src, dst, x, y) >= y - x
    ensures Dist(src, dst, x, y) <= x + y
    decreases x + y
  {
    if x > 0 && y > 0 {
      DistBounds(src, dst, x - 1, y - 1);
      DistBounds(src, dst, x - 1, y);
      DistBounds(src, dst, x, y - 1);
    }
  }

  lemma {:induction false} DistHalf<T>(src: seq<T>, dst: seq<T>, x: nat, y: nat) returns (half: nat)
    ensures Dist(src, dst, x, y) + x + y == 2 * half
    decreases x + y
  {
    if x == 0 || y == 0 {
      half := x + y;
    } else if Match(src, dst, x - 1, y - 1) {
      half := DistHalf(src, dst, x - 1, y - 1);
      half := half + 1;
    } else if Dist(src, dst, x - 1, y) <= Dist(src, dst, x, y - 1) {
      half := DistHalf(src, dst, x - 1, y);
      half := half + 1;
    } else {
      half := DistHalf(src, dst, x, y - 1);
      half := half + 1;
    }
  }

  /** The distance has the parity of the diagonal. */
  lemma {:induction false} DistParity<T>(src: seq<T>, dst: seq<T>, x: nat, y: nat)
    ensures (Dist(src, dst, x, y) + x + y) % 2 == 0
  {
    var half := DistHalf(src, dst, x, y);
  }

  /** Past the end of `src` every further column costs one more. */
  lemma {:induction false} PastOld<T>(src: seq<T>, dst: seq<T>, x: nat, y: nat)
    requires x >= |src|
    ensures Dist(src, dst, x + 1, y) == Dist(src, dst, x, y) + 1
    decreases y
  {
    if y > 0 {
      PastOld(src, dst, x, y - 1);
      Lipschitz(src, dst, x, y - 1);
    }
  }

  lemma {:induction false} PastNew<T>(src: seq<T>, dst: seq<T>, x: nat, y: nat)
    requires y >= |dst|
    ensures Dist(src, dst, x, y + 1) == Dist(src, dst, x, y) + 1
    decreases x
  {
    if x > 0 {
      PastNew(src, dst, x - 1, y);
      Lipschitz(src, dst, x - 1, y);
    }
  }

  /** A point beyond the far corner costs the corner plus the overshoot. */
  lemma {:induction false} Outside<T>(src: seq<T>, dst: seq<T>, x: nat, y: nat)
    requires x >= |src| && y >= |dst|
    ensures Dist(src, dst, x, y) == Dist(src, dst, |src|, |dst|) + (x - |src|) + (y - |dst|)
    decreases x + y
  {
    if x > |src| {
      PastOld(src, dst, x - 1, y);
      Outside(src, dst, x - 1, y);
    } else if y > |dst| {
      PastNew(src, dst, x, y - 1);
      Outside(src, dst, x, y - 1);
    }
  }

  /** No script is cheaper than the distance. */
  lemma {:induction false} ScriptCostsAtLeast<T>(src: seq<T>, dst: seq<T>, s: seq<Step>, x: nat, y: nat)
    requires ScriptFrom(src, dst, s, x, y)
    ensures Dist(src, dst, |src|, |dst|) <= Dist(src, dst, x, y) + Cost(s)
    decreases |s|
  {
    if s != [] {
      Lipschitz(src, dst, x, y);
      ScriptCostsAtLeast(src, dst, s[1..], NextX(s[0], x), NextY(s[0], y));
    }
  }

  // ----- longest common subsequence -----

  ghost function Max(a: int, b: int): int {
    if a >= b then a else b
  }

  /** The length of the longest common subsequence of `src[..i]` and `dst[..j]`. */
  ghost function LcsUpTo<T>(src: seq<T>, dst: seq<T>, i: nat, j: nat): nat
    requires i <= |src| && j <= |dst|
  {
    if i == 0 || j == 0 then 0
    else if src[i - 1] == dst[j - 1] then 1 + LcsUpTo(src, dst, i - 1, j - 1)
    else Max(LcsUpTo(src, dst, i - 1, j), LcsUpTo(src, dst, i, j - 1))
  }

  ghost function Lcs<T>(src: seq<T>, dst: seq<T>): nat {
    LcsUpTo(src, dst, |src|, |dst|)
  }

  ghost predicate IsSubsequence<T>(sub: seq<T>, s: seq<T>)
    decreases |s|
  {
    sub == [] ||
    (s != [] &&
     (IsSubsequence(sub, s[..|s| - 1]) ||
      (sub[|sub| - 1] == s[|s| - 1] && IsSubsequence(sub[..|sub| - 1], s[..|s| - 1]))))
  }

  lemma {:induction false} DropLastOfSubsequence<T>(sub: seq<T>, s: seq<T>)
    requires sub != [] && IsSubsequence(sub, s)
    ensures s != [] && IsSubsequence(sub[..|sub| - 1], s[..|s| - 1])
    decreases |s|
  {
    var front, rest := s[..|s| - 1], sub[..|sub| - 1];
    if IsSubsequence(sub, front) {
      DropLastOfSubsequence(sub, front);
    }
  }

  /** `Lcs` bounds every common subsequence. */
  lemma {:induction false} LcsIsUpperBound<T>(src: seq<T>, dst: seq<T>, i: nat, j: nat, sub: seq<T>)
    requires i <= |src| && j <= |dst|
    requires IsSubsequence(sub, src[..i]) && IsSubsequence(sub, dst[..j])
    ensures |sub| <= LcsUpTo(src, dst, i, j)
    decreases i + j
  {
    if sub != [] {
      var rest := sub[..|sub| - 1];
      assert src[..i][..i - 1] == src[..i - 1] && dst[..j][..j - 1] == dst[..j - 1];
      if src[i - 1] == dst[j - 1] {
        DropLastOfSubsequence(sub, src[..i]);
        DropLastOfSubsequence(sub, dst[..j]);
        LcsIsUpperBound(src, dst, i - 1, j - 1, rest);
      } else if IsSubsequence(sub, src[..i - 1]) {
        LcsIsUpperBound(src, dst, i - 1, j, sub);
      } else {
        assert IsSubsequence(sub, dst[..j - 1]);
        LcsIsUpperBound(src, dst, i, j - 1, sub);
      }
    }
  }

  /** `Lcs` is attained by some common subsequence. */
  lemma {:induction false} LcsIsAttained<T>(src: seq<T>, dst: seq<T>, i: nat, j: nat) returns (sub: seq<T>)
    requires i <= |src| && j <= |dst|
    ensures |sub| == LcsUpTo(src, dst, i, j)
    ensures IsSubsequence(sub, src[..i]) && IsSubsequence(sub, dst[..j])
    decreases i + j
  {
    if i == 0 || j == 0 {
      sub := [];
    } else {
      assert src[..i][..i - 1] == src[..i - 1] && dst[..j][..j - 1] == dst[..j - 1];
      if src[i - 1] == dst[j - 1] {
        var shorter := LcsIsAttained(src, dst, i - 1, j - 1);
        sub := shorter + [src[i - 1]];
        assert sub[..|sub| - 1] == shorter;
      } else if LcsUpTo(src, dst, i - 1, j) >= LcsUpTo(src, dst, i, j - 1) {
        sub := LcsIsAttained(src, dst, i - 1, j);
      } else {
        sub := LcsIsAttained(src, dst, i, j - 1);
      }
    }
  }

  /** Distance and common subsequence measure the same thing. */
  lemma {:induction false} DistByLcs<T>(src: seq<T>, dst: seq<T>, i: nat, j: nat)
    requires i <= |src| && j <= |dst|
    ensures Dist(src, dst, i, j) + 2 * LcsUpTo(src, dst, i, j) == i + j
    decreases i + j
  {
    if i > 0 && j > 0 {
      DistByLcs(src, dst, i - 1, j - 1);
      DistByLcs(src, dst, i - 1, j);
      DistByLcs(src, dst, i, j - 1);
    }
  }

  /** A cheapest script keeps exactly a longest common subsequence. */
  lemma {:induction false} CheapestKeepsLcs<T>(src: seq<T>, dst: seq<T>, s: seq<Step>)
    requires IsScript(src, dst, s) && Cost(s) == Dist(src, dst, |src|, |dst|)
    ensures CountDeletes(s) == |src| - Lcs(src, dst) && CountInserts(s) == |dst| - Lcs(src, dst)
  {
    ScriptFromCounts(src, dst, s, 0, 0);
    DistByLcs(src, dst, |src|, |dst|);
  }
}
