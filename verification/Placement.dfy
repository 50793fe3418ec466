/**
 Where the lines of the wanted entries stand once a plan is carried out, read off the merged lines alone.

 A new line stands directly behind its predecessor. One that opens a section closes the predecessor's section: it
 stands ahead of the quiet lines, blank or comment, that introduce the next one. One without a kept predecessor stands
 directly before its successor, or last.
 */
module Placement {
  import opened Bytes
  import opened Lines
  import opened Entries
  import opened Planning

  // ----- what is to be shown -----

  /** Line `i` lies behind entry `j` and before the line of every later entry that kept its row. */
  ghost predicate BeforeNextKept(slots: seq<Slot>, pos: seq<nat>, j: nat, i: nat)
    requires j < |slots| == |pos|
  {
    pos[j] < i && forall k :: j < k < |slots| && slots[k].OnLine? ==> i < pos[k]
  }

  predicate IsQuiet(line: Line) {
    line.kind.Blank? || line.kind.Comment?
  }

  /** A section header that is no entry's line stands behind `from`, up to and including `to`. */
  ghost predicate HeaderUpTo(merged: seq<Line>, pos: seq<nat>, opens: Text -> bool, from: nat, to: nat) {
    exists h :: from < h <= to && h < |merged| && h !in pos && opens(merged[h].raw)
  }

  /** Between the entry before it and this one no section begins, and no quiet line is left in front of it. */
  ghost predicate EndsSection(merged: seq<Line>, pos: seq<nat>, opens: Text -> bool, j: nat)
    requires 0 < j < |pos|
  {
    && (forall i :: pos[j - 1] < i < pos[j] && i < |merged| ==> !opens(merged[i].raw))
    && (pos[j] == pos[j - 1] + 1 || (0 < pos[j] <= |merged| && !IsQuiet(merged[pos[j] - 1])))
  }

  /** Behind it come only blank lines and comments, up to the next header or the next entry that kept its row. */
  ghost predicate LeadsToHeader(merged: seq<Line>, slots: seq<Slot>, pos: seq<nat>, opens: Text -> bool, j: nat)
    requires j < |slots| == |pos|
  {
    forall i :: 0 <= i < |merged| && i !in pos && BeforeNextKept(slots, pos, j, i) ==>
      IsQuiet(merged[i]) || HeaderUpTo(merged, pos, opens, pos[j], i)
  }

  /** The line of new entry `j` stands where it should. */
  ghost predicate WellPlaced(merged: seq<Line>, slots: seq<Slot>, pos: seq<nat>, opens: Text -> bool, j: nat)
    requires j < |slots| == |pos| && slots[j].NewText?
  {
    && ((forall k :: 0 <= k < j ==> slots[k].NewText?) ==> pos[j] + 1 == if j + 1 < |slots| then pos[j + 1] else |merged|)
    && (j > 0 && !opens(slots[j].raw) ==> pos[j] == pos[j - 1] + 1)
    && (j > 0 && opens(slots[j].raw) ==> EndsSection(merged, pos, opens, j) && LeadsToHeader(merged, slots, pos, opens, j))
  }

  // ----- what the argument needs to know -----

  /** The same text and kind. */
  predicate Shows(line: Line, other: Line) {
    line.raw == other.raw && line.kind == other.kind
  }

  /**
   The lines before and after an edit. Entry `j` stands at `pos[j]`; a row that is `shown` holds no wanted entry and
   stands at `index(row)`. New line `j` was planned for row `target(j)`, at `from(j)` or behind it and not behind
   `limit(j)`.
   */
  datatype Scene = Scene(lines: seq<Line>, merged: seq<Line>, slots: seq<Slot>, opens: Text -> bool, pos: seq<nat>,
                         index: nat -> nat, shown: nat -> bool, from: nat -> nat, limit: nat -> nat, target: nat -> nat)

  ghost predicate InOrder(pos: seq<nat>, n: nat) {
    && (forall i, j :: 0 <= i < j < |pos| ==> pos[i] < pos[j])
    && (forall j :: 0 <= j < |pos| ==> pos[j] < n)
  }

  ghost predicate RowIsShown(c: Scene, row: nat) {
    && row < |c.lines| && c.index(row) < |c.merged| && c.index(row) !in c.pos
    && Shows(c.merged[c.index(row)], c.lines[row])
  }

  /** What is no entry's line is a row that is shown. */
  ghost predicate LineIsRow(c: Scene, i: nat) {
    i in c.pos || exists row: nat :: c.shown(row) && c.index(row) == i
  }

  ghost predicate RowsFollow(c: Scene, row: nat, other: nat) {
    c.index(row) < c.index(other) <==> row < other
  }

  ghost predicate SplitByTarget(c: Scene, j: nat, row: nat)
    requires j < |c.pos|
  {
    c.index(row) < c.pos[j] <==> row < c.target(j)
  }

  ghost predicate SplitByPrevious(c: Scene, j: nat, row: nat)
    requires 0 < j <= |c.pos|
  {
    c.pos[j - 1] < c.index(row) ==> c.from(j) <= row
  }

  ghost predicate SplitByNext(c: Scene, j: nat, row: nat)
    requires j < |c.slots| == |c.pos|
  {
    BeforeNextKept(c.slots, c.pos, j, c.index(row)) ==> row < c.limit(j)
  }

  ghost predicate GapIsShown(c: Scene, j: nat, row: nat) {
    c.from(j) <= row < c.limit(j) ==> c.shown(row)
  }

  /** The row that new line `j` was planned for. */
  ghost predicate PlannedFor(c: Scene, j: nat)
    requires j < |c.slots| && c.slots[j].NewText?
  {
    && ((forall k :: 0 <= k < j ==> c.slots[k].NewText?) ==> c.target(j) == c.limit(j))
    && (j > 0 && !c.opens(c.slots[j].raw) ==> c.target(j) == c.from(j))
    && (j > 0 && c.opens(c.slots[j].raw) ==>
          c.from(j) <= c.limit(j) && c.target(j) == SectionEnd(c.lines, c.from(j), c.limit(j), c.opens))
  }

  ghost predicate Rows(c: Scene) {
    && InOrder(c.pos, |c.merged|)
    && (forall row: nat :: c.shown(row) ==> RowIsShown(c, row))
    && (forall i :: 0 <= i < |c.merged| ==> LineIsRow(c, i))
    && (forall row: nat, other: nat :: c.shown(row) && c.shown(other) ==> RowsFollow(c, row, other))
  }

  ghost predicate NewLinesOf(c: Scene)
    requires |c.slots| == |c.pos|
  {
    && (forall j, row: nat :: 0 <= j < |c.slots| && c.slots[j].NewText? && c.shown(row) ==> SplitByTarget(c, j, row))
    && (forall j, row: nat :: 0 < j < |c.slots| && c.shown(row) ==> SplitByPrevious(c, j, row))
    && (forall j, row: nat :: 0 <= j < |c.slots| && c.shown(row) ==> SplitByNext(c, j, row))
    && (forall j, row: nat :: 0 < j < |c.slots| && c.slots[j].NewText? ==> GapIsShown(c, j, row))
    && (forall j :: 0 <= j < |c.slots| && c.slots[j].NewText? ==> PlannedFor(c, j))
  }

  ghost predicate Arranged(c: Scene) {
    |c.slots| == |c.pos| && Rows(c) && NewLinesOf(c)
  }

  // ----- new lines stand where they should -----

  /** A line that is no wanted entry's is a row that is shown. */
  lemma {:induction false} RowOf(c: Scene, i: nat) returns (row: nat)
    requires Arranged(c) && i < |c.merged| && i !in c.pos
    ensures c.shown(row) && c.index(row) == i && row < |c.lines| && Shows(c.merged[i], c.lines[row])
  {
    assert LineIsRow(c, i);
    row :| c.shown(row) && c.index(row) == i;
    assert RowIsShown(c, row);
  }

  lemma {:induction false} NoEntryBetween(pos: seq<nat>, n: nat, j: nat, i: nat)
    requires InOrder(pos, n) && 0 < j <= |pos| && pos[j - 1] < i && (j < |pos| ==> i < pos[j])
    ensures i !in pos
  {
  }

  /** A line between the entry before new line `j` and the new line is a row between the two. */
  lemma {:induction false} RowBetween(c: Scene, j: nat, i: nat) returns (row: nat)
    requires Arranged(c) && 0 < j < |c.slots| && c.slots[j].NewText? && c.pos[j - 1] < i < c.pos[j]
    ensures i < |c.merged| && c.shown(row) && c.index(row) == i && row < |c.lines| && Shows(c.merged[i], c.lines[row])
    ensures c.from(j) <= row < c.target(j)
  {
    NoEntryBetween(c.pos, |c.merged|, j, i);
    row := RowOf(c, i);
    assert SplitByTarget(c, j, row) && SplitByPrevious(c, j, row);
  }

  lemma {:induction false} DirectlyBehind(c: Scene, j: nat)
    requires Arranged(c) && 0 < j < |c.slots| && c.slots[j].NewText? && c.target(j) == c.from(j)
    ensures c.pos[j] == c.pos[j - 1] + 1
  {
    if c.pos[j - 1] + 1 < c.pos[j] {
      var row := RowBetween(c, j, c.pos[j - 1] + 1);
    }
  }

  /** New line `j` opens a section behind another entry. */
  ghost predicate NewHeader(c: Scene, j: nat) {
    0 < j < |c.slots| && c.slots[j].NewText? && c.opens(c.slots[j].raw)
  }

  lemma {:induction false} SectionEnds(c: Scene, j: nat)
    requires Arranged(c) && NewHeader(c, j)
    ensures EndsSection(c.merged, c.pos, c.opens, j)
  {
    assert PlannedFor(c, j);
    SectionEndMeaning(c.lines, c.from(j), c.limit(j), c.opens);
    forall i | c.pos[j - 1] < i < c.pos[j] && i < |c.merged| ensures !c.opens(c.merged[i].raw) {
      var row := RowBetween(c, j, i);
    }
    if c.pos[j] > c.pos[j - 1] + 1 {
      LineInFront(c, j);
    }
  }

  /** The line in front of a new header that does not stand directly behind an entry is not quiet. */
  lemma {:induction false} LineInFront(c: Scene, j: nat)
    requires Arranged(c) && NewHeader(c, j) && c.pos[j] > c.pos[j - 1] + 1
    ensures c.pos[j] <= |c.merged| && !IsQuiet(c.merged[c.pos[j] - 1])
  {
    assert PlannedFor(c, j);
    SectionEndMeaning(c.lines, c.from(j), c.limit(j), c.opens);
    var row := RowBetween(c, j, c.pos[j] - 1);
    var last := c.target(j) - 1;
    assert GapIsShown(c, j, last) && SplitByTarget(c, j, last) && RowsFollow(c, row, last);
    assert row == last;
  }

  lemma {:induction false} LeadsOn(c: Scene, j: nat)
    requires Arranged(c) && NewHeader(c, j)
    ensures LeadsToHeader(c.merged, c.slots, c.pos, c.opens, j)
  {
    forall i | 0 <= i < |c.merged| && i !in c.pos && BeforeNextKept(c.slots, c.pos, j, i)
      ensures IsQuiet(c.merged[i]) || HeaderUpTo(c.merged, c.pos, c.opens, c.pos[j], i)
    {
      LineBehindHeader(c, j, i);
    }
  }

  lemma {:induction false} LineBehindHeader(c: Scene, j: nat, i: nat)
    requires Arranged(c) && NewHeader(c, j)
    requires i < |c.merged| && i !in c.pos && BeforeNextKept(c.slots, c.pos, j, i)
    ensures IsQuiet(c.merged[i]) || HeaderUpTo(c.merged, c.pos, c.opens, c.pos[j], i)
  {
    assert PlannedFor(c, j);
    SectionEndMeaning(c.lines, c.from(j), c.limit(j), c.opens);
    var row := RowOf(c, i);
    assert SplitByTarget(c, j, row) && SplitByNext(c, j, row);
    var header := FirstOpener(c.lines, c.from(j), c.limit(j), c.opens);
    if header <= row {
      HeaderShown(c, j, header, row);
    } else {
      assert LeadsIn(c.lines, row);
    }
  }

  lemma {:induction false} HeaderShown(c: Scene, j: nat, header: nat, row: nat)
    requires Arranged(c) && NewHeader(c, j) && c.shown(row) && c.target(j) <= header <= row
    requires c.from(j) <= header < c.limit(j) && header < |c.lines| && c.opens(c.lines[header].raw)
    ensures HeaderUpTo(c.merged, c.pos, c.opens, c.pos[j], c.index(row))
  {
    assert GapIsShown(c, j, header);
    assert RowIsShown(c, header) && SplitByTarget(c, j, header) && RowsFollow(c, row, header);
    var h := c.index(header);
    assert h != c.pos[j];
    assert c.pos[j] < h <= c.index(row) && h !in c.pos && c.opens(c.merged[h].raw);
  }

  /** A new line before every kept one is followed by the next wanted entry, or by nothing. */
  lemma {:induction false} LeadingLine(c: Scene, j: nat)
    requires Arranged(c) && j < |c.slots| && forall k :: 0 <= k <= j ==> c.slots[k].NewText?
    ensures c.pos[j] + 1 == if j + 1 < |c.slots| then c.pos[j + 1] else |c.merged|
  {
    var i := c.pos[j] + 1;
    if i < if j + 1 < |c.slots| then c.pos[j + 1] else |c.merged| {
      NoEntryBetween(c.pos, |c.merged|, j + 1, i);
      var row := RowOf(c, i);
      KeptInFront(c, j, row);
    }
  }

  /** A row behind a leading new line stands behind a kept entry too. */
  lemma {:induction false} KeptInFront(c: Scene, j: nat, row: nat)
    requires Arranged(c) && j < |c.slots| && forall k :: 0 <= k <= j ==> c.slots[k].NewText?
    requires c.shown(row) && c.pos[j] < c.index(row)
    ensures exists k :: j < k < |c.slots| && c.slots[k].OnLine? && c.pos[j] < c.pos[k] <= c.index(row)
  {
    assert PlannedFor(c, j) && SplitByTarget(c, j, row) && SplitByNext(c, j, row);
    var k :| j < k < |c.slots| && c.slots[k].OnLine? && c.pos[k] <= c.index(row);
    assert c.pos[j] < c.pos[k];
  }

  lemma {:induction false} NewLineIsPlaced(c: Scene, j: nat)
    requires Arranged(c) && j < |c.slots| && c.slots[j].NewText?
    ensures WellPlaced(c.merged, c.slots, c.pos, c.opens, j)
  {
    assert PlannedFor(c, j);
    if forall k :: 0 <= k < j ==> c.slots[k].NewText? {
      LeadingLine(c, j);
    }
    if j > 0 {
      if c.opens(c.slots[j].raw) {
        SectionEnds(c, j);
        LeadsOn(c, j);
      } else {
        DirectlyBehind(c, j);
      }
    }
  }
}
