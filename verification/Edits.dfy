/**
 What each edit of a document means, row by row, and the canonical form over whole runs of edits.

 A plan is given its simple meaning here, one row after the other: first the new lines planned for the row,
 earlier ones first, then the row itself, kept, rewritten or dropped; last come the new lines for rows that do
 not exist. The merge pass that computes it is in `Document`.
 */
module Edits {
  import opened Wrappers
  import opened Bytes
  import opened Lines
  import opened StableSort

  datatype EditError =
    | LineBreakInValue(value: Text)
    | IndexOutOfRange(index: nat, len: nat)
    | Unsupported(message: string)

  datatype EditReport = EditReport(changedLines: nat, added: nat, removed: nat)

  /** Text that stays on its line. */
  predicate FitsOnLine(raw: Text) {
    LF !in raw && CR !in raw && NUL !in raw
  }

  function CountEnding(lines: seq<Line>, ending: LineEnding): nat {
    if lines == [] then 0
    else CountEnding(lines[..|lines| - 1], ending) + if lines[|lines| - 1].ending == ending then 1 else 0
  }

  /** The terminator new lines get: CRLF when the document has more of them than of LF. */
  function Dominant(lines: seq<Line>): (e: LineEnding)
    ensures !e.NoEnding?
  {
    if CountEnding(lines, CrLf) > CountEnding(lines, Lf) then CrLf else Lf
  }

  function NewLine(raw: Text, classify: Classifier, ending: LineEnding): Line {
    Line(classify(raw), raw, ending, Span(0, 0))
  }

  predicate Unterminated(lines: seq<Line>) {
    lines != [] && lines[|lines| - 1].ending.NoEnding?
  }

  function WithLastEnding(lines: seq<Line>, ending: LineEnding): (r: seq<Line>)
    ensures |r| == |lines|
  {
    if lines == [] then [] else lines[|lines| - 1 := lines[|lines| - 1].(ending := ending)]
  }

  // ----- single-line edits -----

  function InsertLine(lines: seq<Line>, classify: Classifier, idx: nat, raw: Text): Result<seq<Line>, EditError> {
    if !FitsOnLine(raw) then Err(LineBreakInValue(raw))
    else if idx > |lines| then Err(IndexOutOfRange(idx, |lines|))
    else
      var dominant := Dominant(lines);
      if idx == |lines| && Unterminated(lines) then
        Ok(Normalize(WithLastEnding(lines, dominant) + [NewLine(raw, classify, NoEnding)]))
      else
        Ok(Normalize(lines[..idx] + [NewLine(raw, classify, dominant)] + lines[idx..]))
  }

  function ReplaceRaw(lines: seq<Line>, classify: Classifier, idx: nat, raw: Text): Result<seq<Line>, EditError> {
    if !FitsOnLine(raw) then Err(LineBreakInValue(raw))
    else if idx >= |lines| then Err(IndexOutOfRange(idx, |lines|))
    else Ok(Normalize(lines[idx := lines[idx].(kind := classify(raw), raw := raw)]))
  }

  function RemoveLine(lines: seq<Line>, idx: nat): Result<seq<Line>, EditError> {
    if idx >= |lines| then Err(IndexOutOfRange(idx, |lines|))
    else
      var rest := lines[..idx] + lines[idx + 1..];
      Ok(Normalize(if lines[idx].ending.NoEnding? then WithLastEnding(rest, NoEnding) else rest))
  }

  // ----- plans -----

  /** Rewrites, removals and new lines, all by row of the unedited document. */
  datatype EntryPlan = EntryPlan(replace: seq<(nat, Text)>, remove: seq<nat>, insert: seq<(nat, Text)>) {
    /** Both plans as one. */
    function Extend(other: EntryPlan): EntryPlan {
      EntryPlan(replace + other.replace, remove + other.remove, insert + other.insert)
    }
  }

  const EmptyPlan := EntryPlan([], [], [])

  function Row(edit: (nat, Text)): nat {
    edit.0
  }

  function Itself(row: nat): nat {
    row
  }

  /** Every new text stays on its line, and no row is rewritten or removed twice. */
  ghost predicate WellFormedPlan(plan: EntryPlan) {
    && (forall i :: 0 <= i < |plan.replace| ==> FitsOnLine(plan.replace[i].1))
    && (forall i :: 0 <= i < |plan.insert| ==> FitsOnLine(plan.insert[i].1))
    && DistinctKeys(plan.replace, Row)
    && DistinctKeys(plan.remove, Itself)
    && forall i, j :: 0 <= i < |plan.replace| && 0 <= j < |plan.remove| ==> plan.replace[i].0 != plan.remove[j]
  }

  function NewLines(edits: seq<(nat, Text)>, classify: Classifier, ending: LineEnding): (r: seq<Line>)
    ensures |r| == |edits| && forall i :: 0 <= i < |r| ==> r[i] == NewLine(edits[i].1, classify, ending)
  {
    seq(|edits|, i requires 0 <= i < |edits| => NewLine(edits[i].1, classify, ending))
  }

  function Rewritten(line: Line, rewrites: seq<(nat, Text)>, classify: Classifier): Line {
    if rewrites == [] then line else line.(kind := classify(rewrites[0].1), raw := rewrites[0].1)
  }

  function Terminated(line: Line, dominant: LineEnding): Line {
    if line.ending.NoEnding? then line.(ending := dominant) else line
  }

  /** What the plan makes of one row: nothing when it is removed. */
  function RowAfter(lines: seq<Line>, plan: EntryPlan, classify: Classifier, row: nat): seq<Line>
    requires row < |lines|
  {
    if row in plan.remove then []
    else [Terminated(Rewritten(lines[row], Select(plan.replace, Row, row), classify), Dominant(lines))]
  }

  /** The first `n` rows after the plan, each behind the lines inserted before it. */
  function RowsAfter(lines: seq<Line>, plan: EntryPlan, classify: Classifier, n: nat): seq<Line>
    requires n <= |lines|
  {
    if n == 0 then []
    else
      RowsAfter(lines, plan, classify, n - 1)
      + NewLines(Select(plan.insert, Row, n - 1), classify, Dominant(lines))
      + RowAfter(lines, plan, classify, n - 1)
  }

  /** The new lines that no row is left to stand behind. */
  function Appended(lines: seq<Line>, plan: EntryPlan, classify: Classifier): seq<Line> {
    NewLines(SelectRange(plan.insert, Row, |lines|, Bound(plan.insert, Row)), classify, Dominant(lines))
  }

  function Merged(lines: seq<Line>, plan: EntryPlan, classify: Classifier): seq<Line> {
    RowsAfter(lines, plan, classify, |lines|) + Appended(lines, plan, classify)
  }

  /** The merged lines with the last terminator taken off again, if the original had none. */
  function LikeOriginalEnd(lines: seq<Line>, merged: seq<Line>): seq<Line> {
    if Unterminated(lines) then WithLastEnding(merged, NoEnding) else merged
  }

  function ApplyPlan(lines: seq<Line>, plan: EntryPlan, classify: Classifier): seq<Line> {
    Normalize(LikeOriginalEnd(lines, Merged(lines, plan, classify)))
  }

  // ----- every edit keeps the canonical form -----

  /** Lines an edit may leave anywhere but at the end. */
  ghost predicate Closed(lines: seq<Line>, classify: Classifier) {
    forall i :: 0 <= i < |lines| ==>
      LF !in lines[i].raw && lines[i].kind == classify(lines[i].raw) && !lines[i].ending.NoEnding?
  }

  lemma {:induction false} SelectFits(edits: seq<(nat, Text)>, row: nat, e: (nat, Text))
    requires e in Select(edits, Row, row)
    requires forall i :: 0 <= i < |edits| ==> FitsOnLine(edits[i].1)
    ensures FitsOnLine(e.1)
  {
    SelectIn(edits, Row, row, e);
  }

  lemma RowAfterIsClosed(lines: seq<Line>, plan: EntryPlan, classify: Classifier, row: nat)
    requires Editable(lines, classify) && WellFormedPlan(plan) && row < |lines|
    ensures Closed(RowAfter(lines, plan, classify, row), classify)
  {
    var rewrites := Select(plan.replace, Row, row);
    if rewrites != [] {
      SelectFits(plan.replace, row, rewrites[0]);
    }
  }

  lemma {:induction false} InsertsAreClosed(lines: seq<Line>, plan: EntryPlan, classify: Classifier, row: nat)
    requires WellFormedPlan(plan)
    ensures Closed(NewLines(Select(plan.insert, Row, row), classify, Dominant(lines)), classify)
  {
    var edits := Select(plan.insert, Row, row);
    forall i | 0 <= i < |edits| ensures FitsOnLine(edits[i].1) {
      SelectFits(plan.insert, row, edits[i]);
    }
  }

  lemma {:induction false} RowsAfterAreClosed(lines: seq<Line>, plan: EntryPlan, classify: Classifier, n: nat)
    requires Editable(lines, classify) && WellFormedPlan(plan) && n <= |lines|
    ensures Closed(RowsAfter(lines, plan, classify, n), classify)
    decreases n
  {
    if n > 0 {
      RowsAfterAreClosed(lines, plan, classify, n - 1);
      InsertsAreClosed(lines, plan, classify, n - 1);
      RowAfterIsClosed(lines, plan, classify, n - 1);
      ClosedTogether(RowsAfter(lines, plan, classify, n - 1),
                     NewLines(Select(plan.insert, Row, n - 1), classify, Dominant(lines)),
                     RowAfter(lines, plan, classify, n - 1), RowsAfter(lines, plan, classify, n), classify);
    }
  }

  lemma ClosedTogether(a: seq<Line>, b: seq<Line>, c: seq<Line>, all: seq<Line>, classify: Classifier)
    requires Closed(a, classify) && Closed(b, classify) && Closed(c, classify) && all == a + b + c
    ensures Closed(all, classify)
  {
  }

  lemma {:induction false} RangeFits(edits: seq<(nat, Text)>, lo: nat, hi: nat)
    requires forall i :: 0 <= i < |edits| ==> FitsOnLine(edits[i].1)
    ensures forall e :: e in SelectRange(edits, Row, lo, hi) ==> FitsOnLine(e.1)
    decreases hi - lo
  {
    if lo < hi {
      RangeFits(edits, lo + 1, hi);
      forall e | e in Select(edits, Row, lo) ensures FitsOnLine(e.1) {
        SelectFits(edits, lo, e);
      }
    }
  }

  lemma MergedIsClosed(lines: seq<Line>, plan: EntryPlan, classify: Classifier)
    requires Editable(lines, classify) && WellFormedPlan(plan)
    ensures Closed(Merged(lines, plan, classify), classify)
  {
    RowsAfterAreClosed(lines, plan, classify, |lines|);
    var hi := Bound(plan.insert, Row);
    RangeFits(plan.insert, |lines|, hi);
  }

  /** A plan keeps the canonical form. */
  lemma ApplyPlanIsWellFormed(lines: seq<Line>, plan: EntryPlan, classify: Classifier)
    requires WellFormed(lines, classify) && WellFormedPlan(plan) && IgnoresCr(classify)
    ensures WellFormed(ApplyPlan(lines, plan, classify), classify)
  {
    MergedIsClosed(lines, plan, classify);
    var merged := Merged(lines, plan, classify);
    NormalizeIsWellFormed(LikeOriginalEnd(lines, merged), classify);
  }

  lemma AppendIsEditable(lines: seq<Line>, classify: Classifier, dominant: LineEnding, line: Line)
    requires Editable(lines, classify) && !dominant.NoEnding?
    requires LF !in line.raw && line.kind == classify(line.raw)
    ensures Editable(WithLastEnding(lines, dominant) + [line], classify)
  {
  }

  lemma InsertLineIsWellFormed(lines: seq<Line>, classify: Classifier, idx: nat, raw: Text)
    requires WellFormed(lines, classify) && IgnoresCr(classify)
    requires InsertLine(lines, classify, idx, raw).Ok?
    ensures WellFormed(InsertLine(lines, classify, idx, raw).value, classify)
  {
    var dominant := Dominant(lines);
    assert Editable(lines, classify);
    if idx == |lines| && Unterminated(lines) {
      AppendIsEditable(lines, classify, dominant, NewLine(raw, classify, NoEnding));
      NormalizeIsWellFormed(WithLastEnding(lines, dominant) + [NewLine(raw, classify, NoEnding)], classify);
    } else {
      InsertIsEditable(lines, classify, idx, NewLine(raw, classify, dominant));
      NormalizeIsWellFormed(lines[..idx] + [NewLine(raw, classify, dominant)] + lines[idx..], classify);
    }
  }

  lemma InsertIsEditable(lines: seq<Line>, classify: Classifier, idx: nat, line: Line)
    requires Editable(lines, classify) && idx <= |lines| && (idx == |lines| ==> !Unterminated(lines))
    requires LF !in line.raw && line.kind == classify(line.raw) && !line.ending.NoEnding?
    ensures Editable(lines[..idx] + [line] + lines[idx..], classify)
  {
  }

  lemma ReplaceRawIsWellFormed(lines: seq<Line>, classify: Classifier, idx: nat, raw: Text)
    requires WellFormed(lines, classify) && IgnoresCr(classify)
    requires ReplaceRaw(lines, classify, idx, raw).Ok?
    ensures WellFormed(ReplaceRaw(lines, classify, idx, raw).value, classify)
  {
    NormalizeIsWellFormed(lines[idx := lines[idx].(kind := classify(raw), raw := raw)], classify);
  }

  lemma RestIsEditable(lines: seq<Line>, classify: Classifier, idx: nat)
    requires Editable(lines, classify) && idx < |lines|
    ensures var rest := lines[..idx] + lines[idx + 1..];
      if lines[idx].ending.NoEnding? then Closed(rest, classify) else Editable(rest, classify)
  {
  }

  lemma RemoveLineIsWellFormed(lines: seq<Line>, classify: Classifier, idx: nat)
    requires WellFormed(lines, classify) && IgnoresCr(classify)
    requires RemoveLine(lines, idx).Ok?
    ensures WellFormed(RemoveLine(lines, idx).value, classify)
  {
    var rest := lines[..idx] + lines[idx + 1..];
    assert Editable(lines, classify);
    RestIsEditable(lines, classify, idx);
    if lines[idx].ending.NoEnding? {
      NormalizeIsWellFormed(WithLastEnding(rest, NoEnding), classify);
    } else {
      NormalizeIsWellFormed(rest, classify);
    }
  }

  // ----- whole runs -----

  datatype Edit =
    | Insert(idx: nat, raw: Text)
    | Replace(idx: nat, raw: Text)
    | Remove(idx: nat)
    | Plan(plan: EntryPlan)

  /** One edit; a refused one leaves the document untouched. */
  function Step(lines: seq<Line>, classify: Classifier, edit: Edit): seq<Line> {
    var r := match edit
      case Insert(idx, raw) => InsertLine(lines, classify, idx, raw)
      case Replace(idx, raw) => ReplaceRaw(lines, classify, idx, raw)
      case Remove(idx) => RemoveLine(lines, idx)
      case Plan(plan) => Ok(ApplyPlan(lines, plan, classify));
    if r.Ok? then r.value else lines
  }

  function Run(lines: seq<Line>, classify: Classifier, edits: seq<Edit>): seq<Line> {
    if edits == [] then lines
    else Step(Run(lines, classify, edits[..|edits| - 1]), classify, edits[|edits| - 1])
  }

  ghost predicate WellFormedEdits(edits: seq<Edit>) {
    forall i :: 0 <= i < |edits| ==> edits[i].Plan? ==> WellFormedPlan(edits[i].plan)
  }

  lemma StepInserts(before: seq<Line>, classify: Classifier, idx: nat, raw: Text)
    requires WellFormed(before, classify) && IgnoresCr(classify)
    ensures WellFormed(Step(before, classify, Insert(idx, raw)), classify)
  {
    if InsertLine(before, classify, idx, raw).Ok? {
      InsertLineIsWellFormed(before, classify, idx, raw);
    }
  }

  lemma StepReplaces(before: seq<Line>, classify: Classifier, idx: nat, raw: Text)
    requires WellFormed(before, classify) && IgnoresCr(classify)
    ensures WellFormed(Step(before, classify, Replace(idx, raw)), classify)
  {
    if ReplaceRaw(before, classify, idx, raw).Ok? {
      ReplaceRawIsWellFormed(before, classify, idx, raw);
    }
  }

  lemma StepRemoves(before: seq<Line>, classify: Classifier, idx: nat)
    requires WellFormed(before, classify) && IgnoresCr(classify)
    ensures WellFormed(Step(before, classify, Remove(idx)), classify)
  {
    if RemoveLine(before, idx).Ok? {
      RemoveLineIsWellFormed(before, classify, idx);
    }
  }

  lemma StepIsWellFormed(before: seq<Line>, classify: Classifier, edit: Edit)
    requires WellFormed(before, classify) && IgnoresCr(classify) && (edit.Plan? ==> WellFormedPlan(edit.plan))
    ensures WellFormed(Step(before, classify, edit), classify)
  {
    match edit
    case Insert(idx, raw) => StepInserts(before, classify, idx, raw);
    case Replace(idx, raw) => StepReplaces(before, classify, idx, raw);
    case Remove(idx) => StepRemoves(before, classify, idx);
    case Plan(plan) => ApplyPlanIsWellFormed(before, plan, classify);
  }

  lemma {:induction false} RunIsWellFormed(lines: seq<Line>, classify: Classifier, edits: seq<Edit>)
    requires WellFormed(lines, classify) && IgnoresCr(classify) && WellFormedEdits(edits)
    ensures WellFormed(Run(lines, classify, edits), classify)
  {
    if edits != [] {
      RunIsWellFormed(lines, classify, edits[..|edits| - 1]);
      StepIsWellFormed(Run(lines, classify, edits[..|edits| - 1]), classify, edits[|edits| - 1]);
    }
  }

  /** Every document that a run of edits can reach from parsed text is canonical. */
  ghost predicate RunsCanonically(src: Text, classify: Classifier, edits: seq<Edit>) {
    Canonical(Run(Parse(src, classify), classify, edits), classify)
  }

  ghost predicate AllRunsCanonical(classify: Classifier) {
    forall src: Text, edits: seq<Edit> :: WellFormedEdits(edits) ==> RunsCanonically(src, classify, edits)
  }

  lemma ParseOfOneLine(src: Text, classify: Classifier)
    requires LF !in src && src != []
    ensures Parse(src, classify) == [Line(classify(src), src, NoEnding, Span(0, |src|))]
  {
    SegmentLengthOf(src, []);
    assert src + [] == src && src[..|src|] == src && src[|src|..] == [];
    assert Segments(src) == [src] + Segments([]);
    assert LineOf(src, classify) == Line(classify(src), src, NoEnding, Span(0, 0));
    assert LinesOf([src], classify) == [Line(classify(src), src, NoEnding, Span(0, 0))];
  }

  /**
   Appending after a line that ends in CR and has no terminator: the CR moves into the terminator, but
   the line keeps the kind it was given with the CR.
   */
  lemma AppendAfterCr(raw: Text, classify: Classifier)
    ensures var line := Line(classify(raw + [CR]), raw + [CR], NoEnding, Span(0, |raw| + 1));
      && InsertLine([line], classify, 1, []).Ok?
      && var after := InsertLine([line], classify, 1, []).value;
         && |after| == 1 && after[0].raw == raw && after[0].kind == classify(raw + [CR])
  {
    var line := Line(classify(raw + [CR]), raw + [CR], NoEnding, Span(0, |raw| + 1));
    assert [line][..0] == [];
    assert CountEnding([], CrLf) == 0 && CountEnding([], Lf) == 0;
    assert Dominant([line]) == Lf;
    var edited := WithLastEnding([line], Lf) + [NewLine([], classify, NoEnding)];
    assert edited == [line.(ending := Lf), NewLine([], classify, NoEnding)];
    assert DropLast(raw + [CR]) == raw;
    var moved := MoveAllCr(edited);
    assert EmptyLast(moved);
    assert moved[..1] == [moved[0]];
  }

  lemma AppendAfterCrIsCanonical(raw: Text, classify: Classifier)
    requires AllRunsCanonical(classify)
    ensures RunsCanonically(raw + [CR], classify, [Insert(1, [])])
  {
    RunOf(raw + [CR], classify, [Insert(1, [])]);
  }

  lemma RunOf(src: Text, classify: Classifier, edits: seq<Edit>)
    requires AllRunsCanonical(classify) && WellFormedEdits(edits)
    ensures RunsCanonically(src, classify, edits)
  {
  }

  lemma CanonicalRunsNeedIgnoresCr(raw: Text, classify: Classifier)
    requires LF !in raw
    requires RunsCanonically(raw + [CR], classify, [Insert(1, [])])
    ensures classify(raw + [CR]) == classify(raw)
  {
    ParseOfOneLine(raw + [CR], classify);
    AppendAfterCr(raw, classify);
    var lines, edits := Parse(raw + [CR], classify), [Insert(1, [])];
    assert edits[..0] == [] && Run(lines, classify, []) == lines;
    var after := Run(lines, classify, edits);
    assert after == InsertLine(lines, classify, 1, []).value;
    CanonicalIffWellFormed(after, classify);
    assert LineOk(after[0], classify);
  }

  lemma {:induction false} RunIsCanonical(src: Text, classify: Classifier, edits: seq<Edit>)
    requires IgnoresCr(classify) && WellFormedEdits(edits)
    ensures Canonical(Run(Parse(src, classify), classify, edits), classify)
  {
    ParseIsWellFormed(src, classify);
    RunIsWellFormed(Parse(src, classify), classify, edits);
    CanonicalIffWellFormed(Run(Parse(src, classify), classify, edits), classify);
  }

  lemma IgnoresCrSuffices(classify: Classifier)
    requires IgnoresCr(classify)
    ensures AllRunsCanonical(classify)
  {
    forall src: Text, edits: seq<Edit> | WellFormedEdits(edits) ensures RunsCanonically(src, classify, edits) {
      RunIsCanonical(src, classify, edits);
    }
  }

  lemma IgnoresCrIsNeeded(classify: Classifier)
    requires AllRunsCanonical(classify)
    ensures IgnoresCr(classify)
  {
    forall raw: Text | LF !in raw ensures classify(raw + [CR]) == classify(raw) {
      AppendAfterCrIsCanonical(raw, classify);
      CanonicalRunsNeedIgnoresCr(raw, classify);
    }
  }

  /** Runs stay canonical exactly for the classifiers that ignore a trailing carriage return. */
  lemma RunsCanonicalIff(classify: Classifier)
    ensures AllRunsCanonical(classify) <==> IgnoresCr(classify)
  {
    if IgnoresCr(classify) {
      IgnoresCrSuffices(classify);
    }
    if AllRunsCanonical(classify) {
      IgnoresCrIsNeeded(classify);
    }
  }
}
