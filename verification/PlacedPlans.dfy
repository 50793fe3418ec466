/** Every plan puts its new lines in their place: the grid of the merged lines, and the slots laid out on it. */
module PlacedPlans {
  import opened Wrappers
  import opened Bytes
  import opened Lines
  import opened StableSort
  import opened Edits
  import opened Entries
  import opened Planning
  import opened Fidelity
  import opened Preservation
  import opened Layout
  import opened Placement
  import opened Gaps

  /** A document, the slots of the wanted entries, and the plan made for them. */
  datatype Site = Site(lines: seq<Line>, classify: Classifier, opens: Text -> bool, plan: EntryPlan, slots: seq<Slot>) {
    function Merged(): seq<Line> {
      Edits.Merged(lines, plan, classify)
    }
  }

  // ----- the grid of a site -----

  ghost function GridOf(s: Site): Grid {
    Grid(|s.lines|,
         (row: nat) => if row <= |s.lines| then |RowsAfter(s.lines, s.plan, s.classify, row)| else 0,
         (row: nat) => |Select(s.plan.insert, Row, row)|,
         (row: nat) => row in s.plan.remove)
  }

  lemma {:induction false} GridIsLaid(s: Site)
    ensures Laid(GridOf(s))
  {
    forall row | 0 <= row < |s.lines|
      ensures GridOf(s).start(row + 1) == GridOf(s).start(row) + GridOf(s).width(row) + if GridOf(s).gone(row) then 0 else 1
    {
      OneRow(s.lines, s.plan, s.classify, row);
    }
  }

  lemma {:induction false} OneRow(lines: seq<Line>, plan: EntryPlan, classify: Classifier, row: nat)
    requires row < |lines|
    ensures |RowsAfter(lines, plan, classify, row + 1)|
         == |RowsAfter(lines, plan, classify, row)| + |Select(plan.insert, Row, row)| + if row in plan.remove then 0 else 1
  {
  }

  lemma {:induction false} NothingSelected<A>(s: seq<A>, key: A -> nat, lo: nat, hi: nat)
    requires forall i :: 0 <= i < |s| ==> key(s[i]) < lo
    ensures SelectRange(s, key, lo, hi) == []
    decreases hi - lo
  {
    if lo < hi {
      SelectNone(s, key, lo);
      NothingSelected(s, key, lo + 1, hi);
    }
  }

  lemma {:induction false} AppendedSize(lines: seq<Line>, plan: EntryPlan, classify: Classifier)
    requires forall i :: 0 <= i < |plan.insert| ==> plan.insert[i].0 <= |lines|
    ensures |Appended(lines, plan, classify)| == |Select(plan.insert, Row, |lines|)|
  {
    var n, hi := |lines|, Bound(plan.insert, Row);
    if n < hi {
      NothingSelected(plan.insert, Row, n + 1, hi);
    } else {
      SelectNone(plan.insert, Row, n);
    }
  }

  // ----- the cells of the slots -----

  /** How many of the new lines for the same row come before new line `j`. */
  ghost function Rank(s: Site, j: nat): nat
    requires j < |s.slots| && s.slots[j].NewText?
  {
    |Select(InsertsFor(s.lines, s.slots, s.opens, j), Row, Target(s.lines, s.slots, s.opens, j))|
  }

  ghost function CellOf(s: Site, j: nat): Cell
    requires j < |s.slots|
  {
    match s.slots[j]
    case OnLine(row) => OldRow(row)
    case NewText(_) => NewAt(Target(s.lines, s.slots, s.opens, j), Rank(s, j))
  }

  ghost function Cells(s: Site): (cells: seq<Cell>)
    ensures |cells| == |s.slots| && forall j :: 0 <= j < |cells| ==> cells[j] == CellOf(s, j)
  {
    seq(|s.slots|, j requires 0 <= j < |s.slots| => CellOf(s, j))
  }

  ghost predicate RankIn(s: Site, j: nat, edits: seq<(nat, Text)>)
    requires j < |s.slots| && s.slots[j].NewText?
  {
    var t := Target(s.lines, s.slots, s.opens, j);
    var here := Select(edits, Row, t);
    Rank(s, j) < |here| && here[Rank(s, j)] == (t, s.slots[j].raw)
  }

  /** A new line is found at its rank. */
  lemma {:induction false} FoundAtRank(s: Site, j: nat, m: nat)
    requires j < m <= |s.slots| && s.slots[j].NewText?
    ensures RankIn(s, j, InsertsFor(s.lines, s.slots, s.opens, m))
    decreases m
  {
    var before, t := InsertsFor(s.lines, s.slots, s.opens, m - 1), Target(s.lines, s.slots, s.opens, j);
    if j < m - 1 {
      FoundAtRank(s, j, m - 1);
    }
    if s.slots[m - 1].NewText? {
      SelectPush(before, Row, t, (Target(s.lines, s.slots, s.opens, m - 1), s.slots[m - 1].raw));
    }
  }

  /** Every planned line is that of some slot. */
  lemma {:induction false} SlotAtRank(s: Site, row: nat, rank: nat, m: nat) returns (j: nat)
    requires m <= |s.slots| && rank < |Select(InsertsFor(s.lines, s.slots, s.opens, m), Row, row)|
    ensures j < m && s.slots[j].NewText? && Target(s.lines, s.slots, s.opens, j) == row && Rank(s, j) == rank
    decreases m
  {
    var before := InsertsFor(s.lines, s.slots, s.opens, m - 1);
    if s.slots[m - 1].NewText? {
      SelectPush(before, Row, row, (Target(s.lines, s.slots, s.opens, m - 1), s.slots[m - 1].raw));
    }
    if rank < |Select(before, Row, row)| {
      j := SlotAtRank(s, row, rank, m - 1);
    } else {
      j := m - 1;
    }
  }

  /** What planning settles, as far as it matters for where lines stand. */
  ghost predicate Settled(s: Site) {
    && SlotsFit(s.lines, s.slots)
    && s.plan.insert == InsertsFor(s.lines, s.slots, s.opens, |s.slots|)
    && (forall j :: 0 <= j < |s.slots| && s.slots[j].OnLine? ==> s.slots[j].row !in s.plan.remove)
    && (forall i :: 0 <= i < |s.plan.replace| ==> OnLine(s.plan.replace[i].0) in s.slots)
    && (forall j, row :: 0 <= j < |s.slots| && s.slots[j].NewText? && row in s.plan.remove ==> OutsideGap(s, j, row))
  }

  /** The row does not lie between the entry before new line `j` and the next entry that keeps its row. */
  ghost predicate OutsideGap(s: Site, j: nat, row: nat)
    requires j < |s.slots|
  {
    var behind := BehindSlots(s.lines, s.slots, s.opens, j);
    Limit(s.lines, s.slots, j) <= row || (behind.Some? && row < behind.value)
  }

  lemma {:induction false} CellFits(s: Site, j: nat)
    requires Settled(s) && j < |s.slots|
    ensures Fits(GridOf(s), CellOf(s, j))
  {
    KeysAreSorted(s.lines, s.slots, s.opens, j, j);
    if s.slots[j].NewText? {
      FoundAtRank(s, j, |s.slots|);
    }
  }

  lemma {:induction false} CellsInOrder(s: Site, i: nat, j: nat)
    requires Settled(s) && i < j < |s.slots|
    ensures Before(CellOf(s, i), CellOf(s, j))
  {
    KeysAreSorted(s.lines, s.slots, s.opens, i, j);
    if s.slots[i].NewText? && s.slots[j].NewText? {
      FoundAtRank(s, i, j);
    }
  }

  lemma {:induction false} CellsAreOrdered(s: Site)
    requires Settled(s)
    ensures Ordered(GridOf(s), Cells(s))
  {
    forall j | 0 <= j < |s.slots| ensures Fits(GridOf(s), Cells(s)[j]) {
      CellFits(s, j);
    }
    forall i, j | 0 <= i < j < |s.slots| ensures Before(Cells(s)[i], Cells(s)[j]) {
      CellsInOrder(s, i, j);
    }
  }

  lemma {:induction false} CellsHoldNew(s: Site)
    requires Settled(s)
    ensures HoldsNew(GridOf(s), Cells(s))
  {
    var g := GridOf(s);
    forall row: nat, rank: nat | row <= g.rows && rank < g.width(row) ensures NewAt(row, rank) in Cells(s) {
      var j := SlotAtRank(s, row, rank, |s.slots|);
      assert Cells(s)[j] == NewAt(row, rank);
    }
  }

  // ----- the scene -----

  lemma {:induction false} TargetsInside(s: Site, i: nat)
    requires Settled(s) && i < |s.plan.insert|
    ensures s.plan.insert[i].0 <= |s.lines|
  {
    var row := s.plan.insert[i].0;
    SelectIn(s.plan.insert, Row, row, s.plan.insert[i]);
    var j := SlotAtRank(s, row, 0, |s.slots|);
    KeysAreSorted(s.lines, s.slots, s.opens, j, j);
  }

  lemma {:induction false} TotalIsSize(s: Site)
    requires Settled(s)
    ensures GridOf(s).Total() == |s.Merged()|
  {
    forall i | 0 <= i < |s.plan.insert| ensures s.plan.insert[i].0 <= |s.lines| {
      TargetsInside(s, i);
    }
    AppendedSize(s.lines, s.plan, s.classify);
  }

  ghost predicate CellFor(s: Site, c: Cell, j: nat)
    requires j < |s.slots|
  {
    match s.slots[j]
    case OnLine(row) => c == OldRow(row)
    case NewText(_) => c.NewAt? && c.row == Target(s.lines, s.slots, s.opens, j)
  }

  /** All that matters of the grid and the cells of the slots. */
  ghost predicate OnGrid(s: Site, g: Grid, cells: seq<Cell>) {
    && Laid(g) && Ordered(g, cells) && HoldsNew(g, cells) && |cells| == |s.slots|
    && g.rows == |s.lines| && g.Total() == |s.Merged()|
    && (forall row: nat :: g.gone(row) <==> row in s.plan.remove)
    && (forall j :: 0 <= j < |s.slots| ==> CellFor(s, cells[j], j))
  }

  lemma {:induction false} PutOnGrid(s: Site)
    requires Settled(s)
    ensures OnGrid(s, GridOf(s), Cells(s))
  {
    GridIsLaid(s);
    CellsAreOrdered(s);
    CellsHoldNew(s);
    TotalIsSize(s);
  }

  /** The row holds no wanted entry and is not removed. */
  ghost predicate IsShown(s: Site, cells: seq<Cell>, row: nat) {
    row < |s.lines| && row !in s.plan.remove && OldRow(row) !in cells
  }

  ghost function SceneOf(s: Site, g: Grid, cells: seq<Cell>): Scene {
    Scene(s.lines, s.Merged(), s.slots, s.opens, Indices(g, cells),
          (row: nat) => Index(g, OldRow(row)), (row: nat) => IsShown(s, cells, row),
          (j: nat) => FromOf(s, j), (j: nat) => Limit(s.lines, s.slots, j), (j: nat) => TargetOf(s, j))
  }

  /** The position behind the entry before slot `j`. */
  ghost function FromOf(s: Site, j: nat): nat {
    if 0 < j <= |s.slots| then BehindSlots(s.lines, s.slots, s.opens, j).value else 0
  }

  ghost function TargetOf(s: Site, j: nat): nat {
    if j < |s.slots| && s.slots[j].NewText? then Target(s.lines, s.slots, s.opens, j) else 0
  }

  lemma {:induction false} PositionsInOrder(g: Grid, cells: seq<Cell>)
    requires Laid(g) && Ordered(g, cells)
    ensures InOrder(Indices(g, cells), g.Total())
  {
    forall i, j | 0 <= i < j < |cells| ensures Indices(g, cells)[i] < Indices(g, cells)[j] {
      IndicesOrdered(g, cells, i, j);
    }
    forall j | 0 <= j < |cells| ensures Indices(g, cells)[j] < g.Total() {
      CellInside(g, cells[j]);
    }
  }

  lemma {:induction false} NotRewritten(s: Site, cells: seq<Cell>, row: nat)
    requires Settled(s) && |cells| == |s.slots| && (forall j :: 0 <= j < |s.slots| ==> CellFor(s, cells[j], j))
    requires IsShown(s, cells, row)
    ensures Untouched(s.lines, s.plan, row)
  {
    forall i | 0 <= i < |s.plan.replace| ensures s.plan.replace[i].0 != row {
      var j :| 0 <= j < |s.slots| && s.slots[j] == OnLine(s.plan.replace[i].0);
      assert CellFor(s, cells[j], j);
    }
  }

  /** A shown row has the index the grid gives it, and there it looks as it did. */
  lemma {:induction false} ShownRow(s: Site, row: nat)
    requires Settled(s) && IsShown(s, Cells(s), row)
    ensures RowIsShown(SceneOf(s, GridOf(s), Cells(s)), row)
  {
    var g, cells := GridOf(s), Cells(s);
    NotRewritten(s, cells, row);
    SurvivesMerge(s.lines, s.plan, s.classify, row);
    assert Index(g, OldRow(row)) !in Indices(g, cells) by {
      PutOnGrid(s);
      IndexOutside(g, cells, row);
    }
  }

  lemma {:induction false} SceneRows(s: Site, g: Grid, cells: seq<Cell>)
    requires OnGrid(s, g, cells) && forall row: nat :: IsShown(s, cells, row) ==> RowIsShown(SceneOf(s, g, cells), row)
    ensures Rows(SceneOf(s, g, cells))
  {
    var c := SceneOf(s, g, cells);
    PositionsInOrder(g, cells);
    forall i | 0 <= i < |c.merged| ensures LineIsRow(c, i) {
      if i !in c.pos {
        var row := RowOutside(g, cells, i);
        assert c.shown(row) && c.index(row) == i;
      }
    }
    forall row: nat, other: nat | c.shown(row) && c.shown(other) ensures RowsFollow(c, row, other) {
      OrderOfIndices(g, OldRow(row), OldRow(other));
    }
  }

  // ----- rows and new lines -----

  /** A row stands in front of new line `j` exactly when it comes before the row the line was planned for. */
  lemma {:induction false} BeforeTarget(s: Site, g: Grid, cells: seq<Cell>, j: nat, row: nat)
    requires OnGrid(s, g, cells) && j < |s.slots| && s.slots[j].NewText? && IsShown(s, cells, row)
    ensures SplitByTarget(SceneOf(s, g, cells), j, row)
  {
    assert CellFor(s, cells[j], j);
    OrderOfIndices(g, OldRow(row), cells[j]);
  }

  /** A row behind the line of the entry before `j` is one that comes behind it. */
  lemma {:induction false} BehindPrevious(s: Site, g: Grid, cells: seq<Cell>, j: nat, row: nat)
    requires OnGrid(s, g, cells) && 0 < j < |s.slots| && IsShown(s, cells, row)
    ensures SplitByPrevious(SceneOf(s, g, cells), j, row)
  {
    assert CellFor(s, cells[j - 1], j - 1);
    OrderOfIndices(g, cells[j - 1], OldRow(row));
  }

  /** The slot that the next row belongs to. */
  lemma {:induction false} NextSlot(slots: seq<Slot>, j: nat) returns (k: nat)
    requires NextRow(slots, j).Some?
    ensures j <= k < |slots| && slots[k] == OnLine(NextRow(slots, j).value)
    decreases |slots| - j
  {
    if slots[j].OnLine? {
      k := j;
    } else {
      k := NextSlot(slots, j + 1);
    }
  }

  lemma {:induction false} NextRowIsFirst(slots: seq<Slot>, j: nat, k: nat)
    requires IncreasingSlots(slots) && j <= k < |slots| && slots[k].OnLine?
    ensures NextRow(slots, j).Some? && NextRow(slots, j).value <= slots[k].row
    decreases |slots| - j
  {
    if slots[j].NewText? {
      NextRowIsFirst(slots, j + 1, k);
    }
  }

  /** A row before the line of every later kept entry comes before the limit of new line `j`. */
  lemma {:induction false} BeforeLimit(s: Site, g: Grid, cells: seq<Cell>, j: nat, row: nat)
    requires OnGrid(s, g, cells) && j < |s.slots| && IsShown(s, cells, row)
    ensures SplitByNext(SceneOf(s, g, cells), j, row)
  {
    if NextRow(s.slots, j + 1).Some? {
      var k := NextSlot(s.slots, j + 1);
      assert CellFor(s, cells[k], k);
      OrderOfIndices(g, OldRow(row), cells[k]);
    }
  }

  /** No kept entry's row lies between the entry before new line `j` and the next kept one. */
  lemma {:induction false} NoSlotInGap(s: Site, j: nat, k: nat)
    requires Settled(s) && 0 < j < |s.slots| && s.slots[j].NewText? && k < |s.slots| && s.slots[k].OnLine?
    ensures s.slots[k].row < FromOf(s, j) || Limit(s.lines, s.slots, j) <= s.slots[k].row
  {
    if k < j {
      BehindIsBetween(s.lines, s.slots, s.opens, j);
      KeysAreSorted(s.lines, s.slots, s.opens, k, j - 1);
    } else {
      NextRowIsFirst(s.slots, j + 1, k);
    }
  }

  /** Between the entry before new line `j` and the next kept one every row is shown. */
  lemma {:induction false} GapRow(s: Site, g: Grid, cells: seq<Cell>, j: nat, row: nat)
    requires Settled(s) && OnGrid(s, g, cells) && 0 < j < |s.slots| && s.slots[j].NewText?
    ensures GapIsShown(SceneOf(s, g, cells), j, row)
  {
    LimitInside(s.lines, s.slots, j + 1);
    assert row in s.plan.remove ==> OutsideGap(s, j, row);
    if FromOf(s, j) <= row < Limit(s.lines, s.slots, j) {
      forall k | 0 <= k < |cells| ensures cells[k] != OldRow(row) {
        assert CellFor(s, cells[k], k);
        if s.slots[k].OnLine? {
          NoSlotInGap(s, j, k);
        }
      }
    }
  }

  /** Leading new lines all go to the row of the next kept entry, or behind everything. */
  lemma {:induction false} LeadingTarget(s: Site, j: nat)
    requires j < |s.slots| && forall k :: 0 <= k <= j ==> s.slots[k].NewText?
    ensures Target(s.lines, s.slots, s.opens, j) == Limit(s.lines, s.slots, j)
  {
    if j > 0 {
      LeadingTarget(s, j - 1);
      SectionEndMeaning(s.lines, Limit(s.lines, s.slots, j), Limit(s.lines, s.slots, j), s.opens);
    }
  }

  lemma {:induction false} TargetIsPlanned(s: Site, g: Grid, cells: seq<Cell>, j: nat)
    requires Settled(s) && j < |s.slots| && s.slots[j].NewText?
    ensures PlannedFor(SceneOf(s, g, cells), j)
  {
    if forall k :: 0 <= k < j ==> s.slots[k].NewText? {
      LeadingTarget(s, j);
    }
    if j > 0 {
      BehindIsBetween(s.lines, s.slots, s.opens, j);
    }
  }

  lemma {:induction false} SceneIsArranged(s: Site, g: Grid, cells: seq<Cell>)
    requires Settled(s) && OnGrid(s, g, cells)
    requires forall row: nat :: IsShown(s, cells, row) ==> RowIsShown(SceneOf(s, g, cells), row)
    ensures Arranged(SceneOf(s, g, cells))
  {
    var c := SceneOf(s, g, cells);
    SceneRows(s, g, cells);
    forall j, row: nat | 0 <= j < |c.slots| && c.slots[j].NewText? && c.shown(row) ensures SplitByTarget(c, j, row) {
      BeforeTarget(s, g, cells, j, row);
    }
    forall j, row: nat | 0 < j < |c.slots| && c.shown(row) ensures SplitByPrevious(c, j, row) {
      BehindPrevious(s, g, cells, j, row);
    }
    forall j, row: nat | 0 <= j < |c.slots| && c.shown(row) ensures SplitByNext(c, j, row) {
      BeforeLimit(s, g, cells, j, row);
    }
    forall j, row: nat | 0 < j < |c.slots| && c.slots[j].NewText? ensures GapIsShown(c, j, row) {
      GapRow(s, g, cells, j, row);
    }
    forall j | 0 <= j < |c.slots| && c.slots[j].NewText? ensures PlannedFor(c, j) {
      TargetIsPlanned(s, g, cells, j);
    }
  }

  // ----- plans -----

  ghost function SiteOf(lines: seq<Line>, classify: Classifier, opens: Text -> bool, plan: EntryPlan, ops: seq<Op>): Site {
    Site(lines, classify, opens, plan, OpSlots(ops))
  }

  lemma {:induction false} RemovedOutsideGap(s: Site, ops: seq<Op>, j: nat, row: nat)
    requires s.slots == OpSlots(ops) && SlotsFit(s.lines, s.slots) && Paired(ops) && Increasing(OpRows(ops))
    requires j < |s.slots| && s.slots[j].NewText? && row in OpRows(ops)
    ensures OutsideGap(s, j, row)
  {
    AroundNewLine(ops, j, row);
    if SlotAtOrBefore(s.slots, j, row) {
      var k :| j < k < |s.slots| && s.slots[k].OnLine? && s.slots[k].row <= row;
      NextRowIsFirst(s.slots, j + 1, k);
    } else {
      var k :| 0 <= k < |s.slots[..j]| && s.slots[..j][k].OnLine? && row <= s.slots[..j][k].row;
      assert s.slots[k] == s.slots[..j][k];
      BehindIsBetween(s.lines, s.slots, s.opens, j);
      KeysAreSorted(s.lines, s.slots, s.opens, k, j - 1);
    }
  }

  lemma {:induction false} RewriteHasSlot<T>(ops: seq<Op>, made: seq<T>, lines: seq<Line>, parse: Parser<T>,
                                             render: Renderer<T>, i: nat)
    requires Makes(ops, made, lines, parse, render) && Increasing(OpRows(ops)) && i < |OpReplace(ops)|
    ensures OnLine(OpReplace(ops)[i].0) in OpSlots(ops)
  {
    var row := OpReplace(ops)[i].0;
    var j := RowFate(ops, made, lines, parse, render, row);
    SelectIn(OpReplace(ops), Row, row, OpReplace(ops)[i]);
    assert OpSlots(ops)[j] == OnLine(row);
  }

  lemma {:induction false} SlotIsKept<T>(ops: seq<Op>, made: seq<T>, lines: seq<Line>, parse: Parser<T>,
                                         render: Renderer<T>, j: nat)
    requires Makes(ops, made, lines, parse, render) && Increasing(OpRows(ops))
    requires j < |made| == |OpSlots(ops)| && OpSlots(ops)[j].OnLine?
    ensures OpSlots(ops)[j].row !in OpRemove(ops)
    ensures Fate(ops, made, lines, parse, render, OpSlots(ops)[j].row, j)
  {
    var k := RowFate(ops, made, lines, parse, render, OpSlots(ops)[j].row);
  }

  lemma {:induction false} RemovedIsEntry(ops: seq<Op>, row: nat)
    requires row in OpRemove(ops)
    ensures row in OpRows(ops)
    decreases |ops|
  {
    if row in OpRemove(ops[..|ops| - 1]) {
      RemovedIsEntry(ops[..|ops| - 1], row);
    }
  }

  lemma {:induction false} PlanIsSettled<T>(lines: seq<Line>, wanted: seq<T>, classify: Classifier, parse: Parser<T>,
                                            render: Renderer<T>, opens: Text -> bool, plan: EntryPlan, ops: seq<Op>)
    requires PlannedBy(lines, wanted, parse, render, opens, plan, ops)
    ensures Settled(SiteOf(lines, classify, opens, plan, ops))
  {
    var s := SiteOf(lines, classify, opens, plan, ops);
    PlannedSlotsFit(lines, wanted, parse, render, opens, plan, ops);
    forall j | 0 <= j < |s.slots| && s.slots[j].OnLine? ensures s.slots[j].row !in plan.remove {
      SlotIsKept(ops, wanted, lines, parse, render, j);
    }
    forall i | 0 <= i < |plan.replace| ensures OnLine(plan.replace[i].0) in s.slots {
      RewriteHasSlot(ops, wanted, lines, parse, render, i);
    }
    forall j, row | 0 <= j < |s.slots| && s.slots[j].NewText? && row in plan.remove ensures OutsideGap(s, j, row) {
      RemovedIsEntry(ops, row);
      RemovedOutsideGap(s, ops, j, row);
    }
  }

  // ----- what stands at the positions -----

  /** The line is how `w` is written, or it is the row's own line, which holds `w`. */
  ghost predicate StandsFor<T>(line: Line, slot: Slot, w: T, lines: seq<Line>, classify: Classifier, parse: Parser<T>,
                               render: Renderer<T>)
  {
    match slot
    case NewText(raw) => line.raw == raw && line.kind == classify(raw) && Writes(render, w, raw)
    case OnLine(row) =>
      row < |lines| &&
      ((Shows(line, lines[row]) && EntryOf(lines[row], parse) == [w])
       || (line.kind == classify(line.raw) && Writes(render, w, line.raw)))
  }

  lemma {:induction false} KeptStands<T>(lines: seq<Line>, wanted: seq<T>, classify: Classifier, parse: Parser<T>,
                                         render: Renderer<T>, opens: Text -> bool, plan: EntryPlan, ops: seq<Op>, j: nat)
    requires PlannedBy(lines, wanted, parse, render, opens, plan, ops) && j < |wanted| && OpSlots(ops)[j].OnLine?
    ensures var row := OpSlots(ops)[j].row;
      && row < |lines| && NewIndex(lines, plan, classify, row) < |Merged(lines, plan, classify)|
      && StandsFor(Merged(lines, plan, classify)[NewIndex(lines, plan, classify, row)], OpSlots(ops)[j], wanted[j],
                   lines, classify, parse, render)
  {
    PlannedSlotsFit(lines, wanted, parse, render, opens, plan, ops);
    SlotIsKept(ops, wanted, lines, parse, render, j);
    RowInMerged(lines, plan, classify, OpSlots(ops)[j].row);
  }

  lemma {:induction false} NewStands(s: Site, j: nat)
    requires Settled(s) && j < |s.slots| && s.slots[j].NewText?
    ensures var i := Index(GridOf(s), CellOf(s, j));
      i < |s.Merged()| && s.Merged()[i] == NewLine(s.slots[j].raw, s.classify, Dominant(s.lines))
  {
    KeysAreSorted(s.lines, s.slots, s.opens, j, j);
    FoundAtRank(s, j, |s.slots|);
    InsertInMerged(s.lines, s.plan, s.classify, Target(s.lines, s.slots, s.opens, j), Rank(s, j));
  }

  /**
   `pos` says where in `merged` the line of every wanted entry stands: in order, each standing for its entry, the row
   of a kept one where that row went, and every new line where it should be.
   */
  ghost predicate InPlace<T>(lines: seq<Line>, wanted: seq<T>, classify: Classifier, parse: Parser<T>, render: Renderer<T>,
                             opens: Text -> bool, plan: EntryPlan, slots: seq<Slot>, pos: seq<nat>)
  {
    var merged := Merged(lines, plan, classify);
    && |slots| == |wanted| == |pos| && InOrder(pos, |merged|)
    && (forall j :: 0 <= j < |slots| ==> StandsFor(merged[pos[j]], slots[j], wanted[j], lines, classify, parse, render))
    && (forall j :: 0 <= j < |slots| && slots[j].OnLine? ==> pos[j] == NewIndex(lines, plan, classify, slots[j].row))
    && (forall j :: 0 <= j < |slots| && slots[j].NewText? ==> WellPlaced(merged, slots, pos, opens, j))
  }

  lemma {:induction false} SiteIsArranged(s: Site)
    requires Settled(s)
    ensures Arranged(SceneOf(s, GridOf(s), Cells(s)))
  {
    PutOnGrid(s);
    forall row: nat | IsShown(s, Cells(s), row) ensures RowIsShown(SceneOf(s, GridOf(s), Cells(s)), row) {
      ShownRow(s, row);
    }
    SceneIsArranged(s, GridOf(s), Cells(s));
  }

  lemma {:induction false} SlotStands<T>(lines: seq<Line>, wanted: seq<T>, classify: Classifier, parse: Parser<T>,
                                         render: Renderer<T>, opens: Text -> bool, plan: EntryPlan, ops: seq<Op>, j: nat)
    requires PlannedBy(lines, wanted, parse, render, opens, plan, ops) && j < |wanted|
    ensures var s := SiteOf(lines, classify, opens, plan, ops);
      var i := Index(GridOf(s), CellOf(s, j));
      && i < |s.Merged()| && StandsFor(s.Merged()[i], s.slots[j], wanted[j], lines, classify, parse, render)
      && (s.slots[j].OnLine? ==> s.slots[j].row < |lines| && i == NewIndex(lines, plan, classify, s.slots[j].row))
  {
    var s := SiteOf(lines, classify, opens, plan, ops);
    if s.slots[j].OnLine? {
      KeptStands(lines, wanted, classify, parse, render, opens, plan, ops, j);
    } else {
      PlanIsSettled(lines, wanted, classify, parse, render, opens, plan, ops);
      NewStands(s, j);
      MadeSlotsWrite(ops, wanted, lines, parse, render);
    }
  }

  /** Every plan that planning makes puts the lines of the wanted entries in their place. */
  lemma {:induction false} PlanPutsInPlace<T>(lines: seq<Line>, wanted: seq<T>, classify: Classifier, parse: Parser<T>,
                                              render: Renderer<T>, opens: Text -> bool, plan: EntryPlan)
    requires Planned(lines, wanted, parse, render, opens, plan)
    ensures exists slots, pos :: InPlace(lines, wanted, classify, parse, render, opens, plan, slots, pos)
  {
    var ops :| PlannedBy(lines, wanted, parse, render, opens, plan, ops);
    var s := SiteOf(lines, classify, opens, plan, ops);
    PlanIsSettled(lines, wanted, classify, parse, render, opens, plan, ops);
    SiteIsArranged(s);
    var c := SceneOf(s, GridOf(s), Cells(s));
    forall j | 0 <= j < |s.slots|
      ensures StandsFor(c.merged[c.pos[j]], s.slots[j], wanted[j], lines, classify, parse, render)
      ensures s.slots[j].OnLine? ==> s.slots[j].row < |lines| && c.pos[j] == NewIndex(lines, plan, classify, s.slots[j].row)
      ensures s.slots[j].NewText? ==> WellPlaced(c.merged, s.slots, c.pos, opens, j)
    {
      SlotStands(lines, wanted, classify, parse, render, opens, plan, ops, j);
      if s.slots[j].NewText? {
        NewLineIsPlaced(c, j);
      }
    }
    assert InPlace(lines, wanted, classify, parse, render, opens, plan, s.slots, c.pos);
  }
}
