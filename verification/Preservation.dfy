/**
 What carrying out a plan makes of every line: rows outside it survive in order with the same text, a rewritten row
 keeps its terminator, and a new line gets the dominant one.
 */
module Preservation {
  import opened Bytes
  import opened Lines
  import opened StableSort
  import opened Edits

  ghost predicate Untouched(lines: seq<Line>, plan: EntryPlan, row: nat) {
    && row < |lines| && row !in plan.remove
    && forall i :: 0 <= i < |plan.replace| ==> plan.replace[i].0 != row
  }

  /** Where a surviving row ends up: behind the rows before it and the lines inserted before it. */
  ghost function NewIndex(lines: seq<Line>, plan: EntryPlan, classify: Classifier, row: nat): nat
    requires row < |lines|
  {
    |RowsAfter(lines, plan, classify, row)| + |Select(plan.insert, Row, row)|
  }

  lemma {:induction false} RowsAfterIsPrefix(lines: seq<Line>, plan: EntryPlan, classify: Classifier, m: nat, n: nat)
    requires m <= n <= |lines|
    ensures RowsAfter(lines, plan, classify, m) <= RowsAfter(lines, plan, classify, n)
    decreases n
  {
    if m < n {
      RowsAfterIsPrefix(lines, plan, classify, m, n - 1);
      StillPrefix(RowsAfter(lines, plan, classify, m), RowsAfter(lines, plan, classify, n - 1),
                  NewLines(Select(plan.insert, Row, n - 1), classify, Dominant(lines)), RowAfter(lines, plan, classify, n - 1),
                  RowsAfter(lines, plan, classify, n));
    }
  }

  lemma StillPrefix(a: seq<Line>, b: seq<Line>, c: seq<Line>, d: seq<Line>, all: seq<Line>)
    requires a <= b && all == b + c + d
    ensures a <= all
  {
  }

  /** A row that is not removed stands behind the new lines planned for it. */
  lemma {:induction false} RowAt(lines: seq<Line>, plan: EntryPlan, classify: Classifier, row: nat)
    requires row < |lines| && row !in plan.remove
    ensures var i, after := NewIndex(lines, plan, classify, row), RowsAfter(lines, plan, classify, row + 1);
      && |after| == i + 1
      && after[i] == Terminated(Rewritten(lines[row], Select(plan.replace, Row, row), classify), Dominant(lines))
  {
  }

  /** A row that is not removed is found, terminated, in the merged lines. */
  lemma {:induction false} RowInMerged(lines: seq<Line>, plan: EntryPlan, classify: Classifier, row: nat)
    requires row < |lines| && row !in plan.remove
    ensures var i, merged := NewIndex(lines, plan, classify, row), Merged(lines, plan, classify);
      && i < |merged|
      && merged[i] == Terminated(Rewritten(lines[row], Select(plan.replace, Row, row), classify), Dominant(lines))
  {
    RowAt(lines, plan, classify, row);
    RowsAfterIsPrefix(lines, plan, classify, row + 1, |lines|);
  }

  /** A surviving row is found, terminated, in the merged lines. */
  lemma {:induction false} SurvivesMerge(lines: seq<Line>, plan: EntryPlan, classify: Classifier, row: nat)
    requires Untouched(lines, plan, row)
    ensures var i, merged := NewIndex(lines, plan, classify, row), Merged(lines, plan, classify);
      i < |merged| && merged[i] == Terminated(lines[row], Dominant(lines))
  {
    SelectNone(plan.replace, Row, row);
    RowInMerged(lines, plan, classify, row);
  }

  /** Survivors keep their order. */
  lemma SurvivorsInOrder(lines: seq<Line>, plan: EntryPlan, classify: Classifier, row: nat, later: nat)
    requires Untouched(lines, plan, row) && row < later < |lines|
    ensures NewIndex(lines, plan, classify, row) < NewIndex(lines, plan, classify, later)
  {
    RowAt(lines, plan, classify, row);
    RowsAfterIsPrefix(lines, plan, classify, row + 1, later);
  }

  /** The same line up to its position: text, kind and terminator. */
  predicate SameLine(a: Line, b: Line) {
    a.raw == b.raw && a.kind == b.kind && a.ending == b.ending
  }

  /** What normalising makes of one line. */
  lemma NormalizeAt(lines: seq<Line>, i: nat)
    requires i < |lines|
    ensures var r := Normalize(lines);
      && (i < |r| ==> SameLine(r[i], MoveCr(lines[i])))
      && (i >= |r| ==> i == |r| == |lines| - 1 && lines[i].raw == [] && lines[i].ending.NoEnding?)
  {
    var kept := DropEmptyLast(MoveAllCr(lines));
    assert i < |kept| ==> Respan(kept)[i] == kept[i].(span := Respan(kept)[i].span);
  }

  /** A line that was terminated if need be, made last if need be, and normalised. */
  lemma SurvivorShape(l: Line, e: Line, r: Line, classify: Classifier, dominant: LineEnding, last: bool)
    requires LineOk(l, classify) && e.raw == l.raw && e.kind == l.kind
    requires e.ending == (if last then NoEnding else Terminated(l, dominant).ending) && SameLine(r, MoveCr(e))
    ensures !last && !l.ending.NoEnding? ==> SameLine(r, l)
    ensures r.kind == l.kind
    ensures r.raw != l.raw ==> l.ending.NoEnding? && r.ending.CrLf? && r.raw + [CR] == l.raw
  {
    if MoveCr(e) != e {
      assert e.raw == MoveCr(e).raw + [CR];
    }
  }

  /**
   What carrying out a plan leaves of an untouched row. In a file that ends in a newline every such row is kept
   byte for byte, and so is every terminated row of any file that is not the last one of the result. Otherwise
   only the terminator may differ: the last line of a file without a final newline takes one when it is no longer
   last, and then a CR at its end becomes part of it. Only an empty line that would end such a file is dropped.
   */
  lemma UntouchedSurvives(lines: seq<Line>, plan: EntryPlan, classify: Classifier, row: nat)
    requires WellFormed(lines, classify) && Untouched(lines, plan, row)
    ensures var i, after := NewIndex(lines, plan, classify, row), ApplyPlan(lines, plan, classify);
      && (!Unterminated(lines) ==> i < |after| && SameLine(after[i], lines[row]))
      && (i < |Merged(lines, plan, classify)| - 1 && !lines[row].ending.NoEnding? ==> i < |after| && SameLine(after[i], lines[row]))
      && (i < |after| ==> after[i].kind == lines[row].kind)
      && (i < |after| && after[i].raw != lines[row].raw ==>
            lines[row].ending.NoEnding? && after[i].ending.CrLf? && after[i].raw + [CR] == lines[row].raw)
      && (i >= |after| ==> i == |after| && lines[row].raw == [] && Unterminated(lines))
  {
    SurvivesMerge(lines, plan, classify, row);
    SurvivesEnding(lines, Merged(lines, plan, classify), classify, row, NewIndex(lines, plan, classify, row));
  }

  lemma {:induction false} SurvivesEnding(lines: seq<Line>, merged: seq<Line>, classify: Classifier, row: nat, i: nat)
    requires WellFormed(lines, classify) && row < |lines| && i < |merged| && merged[i] == Terminated(lines[row], Dominant(lines))
    ensures var after := Normalize(LikeOriginalEnd(lines, merged));
      && (!Unterminated(lines) ==> i < |after| && SameLine(after[i], lines[row]))
      && (i < |merged| - 1 && !lines[row].ending.NoEnding? ==> i < |after| && SameLine(after[i], lines[row]))
      && (i < |after| ==> after[i].kind == lines[row].kind)
      && (i < |after| && after[i].raw != lines[row].raw ==>
            lines[row].ending.NoEnding? && after[i].ending.CrLf? && after[i].raw + [CR] == lines[row].raw)
      && (i >= |after| ==> i == |after| && lines[row].raw == [] && Unterminated(lines))
  {
    var edited := LikeOriginalEnd(lines, merged);
    EndingOf(lines, merged, i);
    NormalizeAt(edited, i);
    if i < |Normalize(edited)| {
      SurvivorShape(lines[row], edited[i], Normalize(edited)[i], classify, Dominant(lines),
                    i == |merged| - 1 && Unterminated(lines));
    }
  }

  /**
   What carrying out a plan makes of any merged line: it stays at its index with its kind and its text, but for a CR
   that becomes part of the terminator. Only an empty line that would end an unterminated file is dropped.
   */
  lemma AppliedLine(lines: seq<Line>, plan: EntryPlan, classify: Classifier, i: nat)
    requires i < |Merged(lines, plan, classify)|
    ensures var merged, after := Merged(lines, plan, classify), ApplyPlan(lines, plan, classify);
      && (i >= |after| ==> i == |after| == |merged| - 1 && merged[i].raw == [])
      && (i < |after| ==>
            && after[i].kind == merged[i].kind
            && (after[i].raw == merged[i].raw || (after[i].raw + [CR] == merged[i].raw && after[i].ending.CrLf?)))
  {
    EndedLine(lines, Merged(lines, plan, classify), i);
  }

  lemma {:induction false} EndedLine(lines: seq<Line>, merged: seq<Line>, i: nat)
    requires i < |merged|
    ensures var after := Normalize(LikeOriginalEnd(lines, merged));
      && (i >= |after| ==> i == |after| == |merged| - 1 && merged[i].raw == [])
      && (i < |after| ==>
            && after[i].kind == merged[i].kind
            && (after[i].raw == merged[i].raw || (after[i].raw + [CR] == merged[i].raw && after[i].ending.CrLf?)))
  {
    var edited := LikeOriginalEnd(lines, merged);
    EndingOf(lines, merged, i);
    NormalizeAt(edited, i);
    if MoveCr(edited[i]) != edited[i] {
      assert edited[i].raw == MoveCr(edited[i]).raw + [CR];
    }
  }

  // ----- rewritten rows -----

  /** What the last line of the merged lines ends in, and every other one. */
  lemma EndingOf(lines: seq<Line>, merged: seq<Line>, i: nat)
    requires i < |merged|
    ensures var edited := LikeOriginalEnd(lines, merged);
      && |edited| == |merged| && edited[i].raw == merged[i].raw && edited[i].kind == merged[i].kind
      && edited[i].ending == if i == |merged| - 1 && Unterminated(lines) then NoEnding else merged[i].ending
  {
  }

  /**
   A line with a text that stays on its line comes through `apply_plan` with that text and its class. It keeps its
   terminator unless it ends an unterminated file; only an empty line there is dropped.
   */
  lemma {:induction false} WrittenLine(lines: seq<Line>, plan: EntryPlan, classify: Classifier, i: nat, raw: Text, ending: LineEnding)
    requires FitsOnLine(raw) && !ending.NoEnding? && i < |Merged(lines, plan, classify)|
    requires SameLine(Merged(lines, plan, classify)[i], NewLine(raw, classify, ending))
    ensures var after, last := ApplyPlan(lines, plan, classify), i == |Merged(lines, plan, classify)| - 1 && Unterminated(lines);
      && (i >= |after| ==> last && raw == [])
      && (i < |after| ==> SameLine(after[i], NewLine(raw, classify, if last then NoEnding else ending)))
  {
    var merged := Merged(lines, plan, classify);
    EndingOf(lines, merged, i);
    NormalizeAt(LikeOriginalEnd(lines, merged), i);
  }

  lemma {:induction false} RewriteOf(plan: EntryPlan, k: nat)
    requires WellFormedPlan(plan) && k < |plan.replace|
    ensures var row := plan.replace[k].0; row !in plan.remove && Select(plan.replace, Row, row) == [plan.replace[k]]
  {
    SelectRun(plan.replace, Row, k, k + 1, plan.replace[k].0);
  }

  /**
   What carrying out a plan makes of a row named in `replace`: the plan's text, its class, and the terminator the
   row had. Without one it takes the dominant terminator, and the last line of an unterminated file has none.
   */
  lemma RewrittenSurvives(lines: seq<Line>, plan: EntryPlan, classify: Classifier, k: nat)
    requires WellFormedPlan(plan) && k < |plan.replace| && plan.replace[k].0 < |lines|
    ensures var row, text := plan.replace[k].0, plan.replace[k].1;
      var i, after := NewIndex(lines, plan, classify, row), ApplyPlan(lines, plan, classify);
      var last := i == |Merged(lines, plan, classify)| - 1 && Unterminated(lines);
      && (i >= |after| ==> last && text == [])
      && (i < |after| ==>
            && after[i].raw == text && after[i].kind == classify(text)
            && after[i].ending ==
               if last then NoEnding else if lines[row].ending == NoEnding then Dominant(lines) else lines[row].ending)
  {
    var row, text := plan.replace[k].0, plan.replace[k].1;
    RewriteOf(plan, k);
    RowInMerged(lines, plan, classify, row);
    var ending := if lines[row].ending == NoEnding then Dominant(lines) else lines[row].ending;
    WrittenLine(lines, plan, classify, NewIndex(lines, plan, classify, row), text, ending);
  }

  // ----- new lines -----

  /** Where the `k`-th new line planned for `row` ends up: before the row, or at the end when there is no such row. */
  ghost function InsertIndex(lines: seq<Line>, plan: EntryPlan, classify: Classifier, row: nat, k: nat): nat {
    if row < |lines| then |RowsAfter(lines, plan, classify, row)| + k
    else |RowsAfter(lines, plan, classify, |lines|)| + |SelectRange(plan.insert, Row, |lines|, row)| + k
  }

  lemma {:induction false} InsertAt(lines: seq<Line>, plan: EntryPlan, classify: Classifier, row: nat, k: nat)
    requires row < |lines| && k < |Select(plan.insert, Row, row)|
    ensures var i, after := |RowsAfter(lines, plan, classify, row)| + k, RowsAfter(lines, plan, classify, row + 1);
      i < |after| && after[i] == NewLine(Select(plan.insert, Row, row)[k].1, classify, Dominant(lines))
  {
    var added := NewLines(Select(plan.insert, Row, row), classify, Dominant(lines));
    assert added[k] == NewLine(Select(plan.insert, Row, row)[k].1, classify, Dominant(lines));
  }

  lemma {:induction false} InsertBelowBound(plan: EntryPlan, row: nat, k: nat)
    requires k < |Select(plan.insert, Row, row)|
    ensures row < Bound(plan.insert, Row) && Select(plan.insert, Row, row)[k] in plan.insert
  {
    SelectIn(plan.insert, Row, row, Select(plan.insert, Row, row)[k]);
  }

  lemma {:induction false} InsertAtEnd(lines: seq<Line>, plan: EntryPlan, classify: Classifier, row: nat, k: nat)
    requires |lines| <= row && k < |Select(plan.insert, Row, row)|
    ensures var i, appended := |SelectRange(plan.insert, Row, |lines|, row)| + k, Appended(lines, plan, classify);
      i < |appended| && appended[i] == NewLine(Select(plan.insert, Row, row)[k].1, classify, Dominant(lines))
  {
    InsertBelowBound(plan, row, k);
    SelectRangeSplit(plan.insert, Row, |lines|, row, Bound(plan.insert, Row));
  }

  lemma BehindKeeps<A>(a: seq<A>, b: seq<A>, all: seq<A>, i: nat)
    requires all == a + b && i < |b|
    ensures |a| + i < |all| && all[|a| + i] == b[i]
  {
  }

  ghost predicate InsertedAs(lines: seq<Line>, plan: EntryPlan, classify: Classifier, row: nat, k: nat, at: seq<Line>, i: nat)
    requires k < |Select(plan.insert, Row, row)|
  {
    i < |at| && at[i] == NewLine(Select(plan.insert, Row, row)[k].1, classify, Dominant(lines))
  }

  lemma {:induction false} InsertInRows(lines: seq<Line>, plan: EntryPlan, classify: Classifier, row: nat, k: nat)
    requires row < |lines| && k < |Select(plan.insert, Row, row)|
    ensures InsertedAs(lines, plan, classify, row, k, RowsAfter(lines, plan, classify, |lines|),
                       |RowsAfter(lines, plan, classify, row)| + k)
  {
    InsertAt(lines, plan, classify, row, k);
    RowsAfterIsPrefix(lines, plan, classify, row + 1, |lines|);
  }

  lemma {:induction false} InsertInFront(lines: seq<Line>, plan: EntryPlan, classify: Classifier, row: nat, k: nat)
    requires row < |lines| && k < |Select(plan.insert, Row, row)|
    ensures InsertedAs(lines, plan, classify, row, k, Merged(lines, plan, classify), |RowsAfter(lines, plan, classify, row)| + k)
  {
    InsertInRows(lines, plan, classify, row, k);
  }

  lemma {:induction false} InsertBehind(lines: seq<Line>, plan: EntryPlan, classify: Classifier, row: nat, k: nat)
    requires |lines| <= row && k < |Select(plan.insert, Row, row)|
    ensures InsertedAs(lines, plan, classify, row, k, Merged(lines, plan, classify),
                       |RowsAfter(lines, plan, classify, |lines|)| + |SelectRange(plan.insert, Row, |lines|, row)| + k)
  {
    var appended, i := Appended(lines, plan, classify), |SelectRange(plan.insert, Row, |lines|, row)| + k;
    assert InsertedAs(lines, plan, classify, row, k, appended, i) by {
      InsertAtEnd(lines, plan, classify, row, k);
    }
    BehindKeeps(RowsAfter(lines, plan, classify, |lines|), appended, Merged(lines, plan, classify), i);
  }

  /** Every planned line is found in the merged lines. */
  lemma {:induction false} InsertInMerged(lines: seq<Line>, plan: EntryPlan, classify: Classifier, row: nat, k: nat)
    requires k < |Select(plan.insert, Row, row)|
    ensures InsertedAs(lines, plan, classify, row, k, Merged(lines, plan, classify), InsertIndex(lines, plan, classify, row, k))
  {
    if row < |lines| {
      InsertInFront(lines, plan, classify, row, k);
    } else {
      InsertBehind(lines, plan, classify, row, k);
    }
  }

  /** What carrying out a plan makes of a new line: the plan's text, its class and the dominant terminator. */
  lemma {:induction false} NewLineSurvives(lines: seq<Line>, plan: EntryPlan, classify: Classifier, row: nat, k: nat)
    requires WellFormedPlan(plan) && k < |Select(plan.insert, Row, row)|
    ensures var text := Select(plan.insert, Row, row)[k].1;
      var i, after := InsertIndex(lines, plan, classify, row, k), ApplyPlan(lines, plan, classify);
      var last := i == |Merged(lines, plan, classify)| - 1 && Unterminated(lines);
      && (i >= |after| ==> last && text == [])
      && (i < |after| ==>
            && after[i].raw == text && after[i].kind == classify(text)
            && after[i].ending == if last then NoEnding else Dominant(lines))
  {
    InsertBelowBound(plan, row, k);
    InsertInMerged(lines, plan, classify, row, k);
    WrittenLine(lines, plan, classify, InsertIndex(lines, plan, classify, row, k), Select(plan.insert, Row, row)[k].1,
                Dominant(lines));
  }
}
