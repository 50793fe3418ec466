/**
 The document of `doc.rs`: a vector of lines changed in place, and the merge pass that carries out a plan.

 Every method is tied to its meaning in `Lines`, `Edits` or `Planning`; what those meanings guarantee is
 proved beside them and repeated here for whole edits.
 */
module Document {
  import opened Wrappers
  import opened Sequences
  import opened Bytes
  import opened Lines
  import opened StableSort
  import opened Edits
  import opened Entries
  import opened Planning
  import opened EditTheorems
  import opened EditedText
  import PlacedPlans

  // ----- parsing -----

  lemma {:induction false} RespanPush(lines: seq<Line>, line: Line)
    ensures Respan(lines + [line]) == Respan(lines) + [SpannedAt(line, TotalSize(lines))]
    ensures TotalSize(lines + [line]) == TotalSize(lines) + line.Size()
  {
    assert (lines + [line])[..|lines|] == lines;
  }

  /** The first `i` lines have their spans and end at `offset`; the others are as they were. */
  ghost predicate RespannedTo(before: seq<Line>, lines: seq<Line>, i: nat, offset: nat) {
    && i <= |lines| == |before| && (forall j :: i <= j < |lines| ==> lines[j] == before[j])
    && SpansOf(before[..i], lines[..i], offset)
  }

  ghost predicate SpansOf(before: seq<Line>, lines: seq<Line>, offset: nat) {
    lines == Respan(before) && offset == TotalSize(before)
  }

  lemma {:induction false} RespannedOneMore(before: seq<Line>, lines: seq<Line>, i: nat, offset: nat)
    requires RespannedTo(before, lines, i, offset) && i < |lines|
    ensures RespannedTo(before, lines[i := SpannedAt(lines[i], offset)], i + 1, offset + lines[i].Size())
  {
    var after := lines[i := SpannedAt(lines[i], offset)];
    assert before[..i + 1] == before[..i] + [before[i]];
    assert after[..i + 1] == lines[..i] + [after[i]];
  }

  /** `segs` were taken off `src` and `rest` is left; `lines` are their lines and end at `at`. */
  ghost predicate ParsedTo(src: Text, classify: Classifier, segs: seq<Text>, lines: seq<Line>, rest: Text, at: nat) {
    SegmentedTo(src, segs, rest) && LinedTo(classify, segs, lines, at)
  }

  ghost predicate SegmentedTo(src: Text, segs: seq<Text>, rest: Text) {
    Segments(src) == segs + Segments(rest)
  }

  ghost predicate LinedTo(classify: Classifier, segs: seq<Text>, lines: seq<Line>, at: nat) {
    lines == Respan(LinesOf(segs, classify)) && at == TotalSize(LinesOf(segs, classify))
  }

  lemma {:induction false} LinedOneMore(classify: Classifier, segs: seq<Text>, lines: seq<Line>, at: nat, seg: Text)
    requires LinedTo(classify, segs, lines, at) && LineOf(seg, classify).Size() == |seg|
    ensures LinedTo(classify, segs + [seg], lines + [SpannedAt(LineOf(seg, classify), at)], at + |seg|)
  {
    LinesOfPush(segs, seg, classify);
    RespanPush(LinesOf(segs, classify), LineOf(seg, classify));
  }

  lemma {:induction false} SegmentsPush(all: seq<Text>, segs: seq<Text>, rest: Text, n: nat)
    requires rest != [] && n == SegmentLength(rest) && all == segs + Segments(rest)
    ensures all == segs + [rest[..n]] + Segments(rest[n..])
  {
    Regroup(segs, [rest[..n]], Segments(rest[n..]));
  }

  lemma LinesOfPush(segs: seq<Text>, seg: Text, classify: Classifier)
    ensures LinesOf(segs + [seg], classify) == LinesOf(segs, classify) + [LineOf(seg, classify)]
  {
  }

  /** Splits `src` into lines, segment by segment. */
  method ParseLines(src: Text, classify: Classifier) returns (lines: seq<Line>)
    ensures lines == Parse(src, classify)
  {
    lines := [];
    var rest, offset := src, 0;
    ghost var segs: seq<Text> := [];
    NothingParsed(src, classify);
    while rest != []
      invariant ParsedTo(src, classify, segs, lines, rest, offset)
      decreases |rest|
    {
      var n := FindSegment(rest);
      var seg := rest[..n];
      SegmentsPush(Segments(src), segs, rest, n);
      LinedOneMore(classify, segs, lines, offset, seg);
      lines, segs := lines + [SpannedAt(LineOf(seg, classify), offset)], segs + [seg];
      rest, offset := rest[n..], offset + n;
    }
    AllParsed(src, classify, segs, lines, offset);
  }

  lemma {:induction false} NothingParsed(src: Text, classify: Classifier)
    ensures ParsedTo(src, classify, [], [], src, 0)
  {
    assert LinesOf([], classify) == [];
    assert [] + Segments(src) == Segments(src);
  }

  lemma {:induction false} AllParsed(src: Text, classify: Classifier, segs: seq<Text>, lines: seq<Line>, at: nat)
    requires ParsedTo(src, classify, segs, lines, [], at)
    ensures lines == Parse(src, classify)
  {
    assert segs + [] == segs;
  }

  /** The length of the first segment. */
  method FindSegment(rest: Text) returns (n: nat)
    requires rest != []
    ensures 0 < n == SegmentLength(rest) <= |rest|
  {
    n := 0;
    while n < |rest| && rest[n] != LF
      invariant n <= |rest| && n + SegmentLength(rest[n..]) == SegmentLength(rest)
    {
      assert rest[n..][1..] == rest[n + 1..];
      n := n + 1;
    }
    if n < |rest| {
      n := n + 1;
    } else {
      assert rest[n..] == [];
    }
  }

  lemma {:induction false} RenderOneMore(lines: seq<Line>, i: nat)
    requires i < |lines|
    ensures Concat(Contents(lines[..i + 1])) == Concat(Contents(lines[..i])) + lines[i].raw + lines[i].ending.AsText()
  {
    assert Contents(lines[..i + 1]) == Contents(lines[..i]) + [lines[i].Content()];
    ConcatAppend(Contents(lines[..i]), [lines[i].Content()]);
    assert Concat([lines[i].Content()]) == lines[i].Content() + Concat([]);
  }

  // ----- the merge pass -----

  /** The items of a sorted stream before `i` have keys below `k`, the others do not. */
  ghost predicate Cursor<A>(s: seq<A>, key: A -> nat, i: nat, k: nat) {
    i <= |s| && forall x :: 0 <= x < |s| ==> (k <= key(s[x]) <==> i <= x)
  }

  /** With distinct keys the cursor shows whether the stream has an item for this row. */
  lemma {:induction false} CursorHit<A>(s: seq<A>, key: A -> nat, i: nat, k: nat)
    requires Sorted(s, key) && DistinctKeys(s, key) && Cursor(s, key, i, k)
    ensures var hit := i < |s| && key(s[i]) == k;
      && Select(s, key, k) == (if hit then [s[i]] else [])
      && Cursor(s, key, if hit then i + 1 else i, k + 1)
  {
    if i < |s| && key(s[i]) == k {
      SelectRun(s, key, i, i + 1, k);
    } else {
      SelectNone(s, key, k);
    }
  }

  /** Takes the inserts planned at `row` or before it off the stream. */
  method TakeInserts(insert: seq<(nat, Text)>, start: nat, row: nat, classify: Classifier, dominant: LineEnding, out: seq<Line>)
    returns (lines: seq<Line>, next: nat)
    requires Sorted(insert, Row) && Cursor(insert, Row, start, row)
    ensures lines == out + NewLines(Select(insert, Row, row), classify, dominant)
    ensures Cursor(insert, Row, next, row + 1)
  {
    lines, next := out, start;
    while next < |insert| && insert[next].0 <= row
      invariant start <= next <= |insert|
      invariant forall x :: start <= x < next ==> Row(insert[x]) == row
      invariant lines == out + NewLines(insert[start..next], classify, dominant)
    {
      lines := lines + [NewLine(insert[next].1, classify, dominant)];
      next := next + 1;
    }
    SelectRun(insert, Row, start, next, row);
  }

  /** The streams of a plan, each sorted by row. */
  ghost predicate SortedStreams(plan: EntryPlan, replace: seq<(nat, Text)>, remove: seq<nat>, insert: seq<(nat, Text)>) {
    && replace == SortBy(plan.replace, Row) && remove == SortBy(plan.remove, Itself) && insert == SortBy(plan.insert, Row)
    && WellFormedPlan(plan)
  }

  lemma {:induction false} StreamFacts(plan: EntryPlan, replace: seq<(nat, Text)>, remove: seq<nat>, insert: seq<(nat, Text)>)
    requires SortedStreams(plan, replace, remove, insert)
    ensures Sorted(replace, Row) && Sorted(remove, Itself) && Sorted(insert, Row)
    ensures DistinctKeys(replace, Row) && DistinctKeys(remove, Itself)
    ensures forall k :: Select(replace, Row, k) == Select(plan.replace, Row, k)
    ensures forall k :: Select(insert, Row, k) == Select(plan.insert, Row, k)
    ensures forall row :: row in remove <==> row in plan.remove
  {
    SortByIsStable(plan.replace, Row);
    SortByIsStable(plan.remove, Itself);
    SortByIsStable(plan.insert, Row);
    SortByKeepsDistinct(plan.replace, Row);
    SortByKeepsDistinct(plan.remove, Itself);
    forall row ensures row in remove <==> row in plan.remove {
      SortByKeepsItems(plan.remove, Itself, row);
    }
  }

  /** A removed row is not rewritten. */
  lemma {:induction false} RemovedIsNotRewritten(plan: EntryPlan, row: nat)
    requires WellFormedPlan(plan) && row in plan.remove
    ensures Select(plan.replace, Row, row) == []
  {
    SelectNone(plan.replace, Row, row);
  }

  /** One row of the merge pass, after its inserts. */
  method MergeRow(line: Line, row: nat, replace: seq<(nat, Text)>, remove: seq<nat>, ri: nat, mi: nat,
                  classify: Classifier, dominant: LineEnding, out: seq<Line>)
    returns (lines: seq<Line>, ri': nat, mi': nat)
    requires Sorted(replace, Row) && DistinctKeys(replace, Row) && Cursor(replace, Row, ri, row)
    requires Sorted(remove, Itself) && DistinctKeys(remove, Itself) && Cursor(remove, Itself, mi, row)
    requires row in remove ==> Select(replace, Row, row) == []
    ensures lines == out + if row in remove then [] else [Terminated(Rewritten(line, Select(replace, Row, row), classify), dominant)]
    ensures Cursor(replace, Row, ri', row + 1) && Cursor(remove, Itself, mi', row + 1)
  {
    CursorHit(replace, Row, ri, row);
    ri', mi', lines := ri, mi, out;
    if mi < |remove| && remove[mi] == row {
      mi' := mi + 1;
      assert lines == out + [];
      return;
    }
    var kept := line;
    if ri < |replace| && replace[ri].0 == row {
      kept := kept.(kind := classify(replace[ri].1), raw := replace[ri].1);
      ri' := ri + 1;
    }
    if kept.ending.NoEnding? {
      kept := kept.(ending := dominant);
    }
    lines := lines + [kept];
  }

  /** The single pass over the rows and the three sorted streams computes the row-by-row meaning of the plan. */
  method Merge(before: seq<Line>, replace: seq<(nat, Text)>, remove: seq<nat>, insert: seq<(nat, Text)>,
               classify: Classifier, dominant: LineEnding, ghost plan: EntryPlan)
    returns (lines: seq<Line>)
    requires SortedStreams(plan, replace, remove, insert) && dominant == Dominant(before)
    ensures lines == Merged(before, plan, classify)
  {
    StreamFacts(plan, replace, remove, insert);
    lines := [];
    var ri: nat, mi: nat, ii: nat := 0, 0, 0;
    for row := 0 to |before|
      invariant lines == RowsAfter(before, plan, classify, row)
      invariant Cursor(insert, Row, ii, row) && Cursor(replace, Row, ri, row) && Cursor(remove, Itself, mi, row)
    {
      if row in remove {
        RemovedIsNotRewritten(plan, row);
      }
      lines, ii := TakeInserts(insert, ii, row, classify, dominant, lines);
      lines, ri, mi := MergeRow(before[row], row, replace, remove, ri, mi, classify, dominant, lines);
    }
    RestIsAppended(before, plan, insert, ii);
    lines := lines + NewLines(insert[ii..], classify, dominant);
  }

  /** Sorts the streams, merges, and takes the last terminator off again where there was none. */
  method MergeAll(before: seq<Line>, plan: EntryPlan, classify: Classifier, dominant: LineEnding) returns (lines: seq<Line>)
    requires WellFormedPlan(plan) && dominant == Dominant(before)
    ensures lines == LikeOriginalEnd(before, Merged(before, plan, classify))
  {
    lines := Merge(before, SortBy(plan.replace, Row), SortBy(plan.remove, Itself), SortBy(plan.insert, Row),
                   classify, dominant, plan);
    if Unterminated(before) && lines != [] {
      lines := lines[|lines| - 1 := lines[|lines| - 1].(ending := NoEnding)];
    }
  }

  lemma {:induction false} RestIsAppended(before: seq<Line>, plan: EntryPlan, insert: seq<(nat, Text)>, i: nat)
    requires insert == SortBy(plan.insert, Row) && Cursor(insert, Row, i, |before|)
    ensures insert[i..] == SelectRange(plan.insert, Row, |before|, Bound(plan.insert, Row))
  {
    var n, hi := |before|, Bound(plan.insert, Row);
    SortByIsStable(plan.insert, Row);
    SelectRangeOfSame(insert, plan.insert, Row, n, hi);
    forall x | 0 <= x < |insert| ensures Row(insert[x]) < hi {
      SortByKeepsItems(plan.insert, Row, insert[x]);
    }
    if n <= hi {
      SortedIsSelectRange(insert, Row, i, n, hi);
    } else if i < |insert| {
      CursorKey(insert, Row, i, n);
    }
  }

  lemma CursorKey<A>(s: seq<A>, key: A -> nat, i: nat, k: nat)
    requires Cursor(s, key, i, k) && i < |s|
    ensures k <= key(s[i])
  {
  }

  class Document {
    var lines: seq<Line>
    const classify: Classifier

    /** Total: any text parses. */
    constructor (src: Text, classify: Classifier)
      ensures this.classify == classify && lines == Parse(src, classify)
      ensures WellFormed(lines, classify) && Render(lines) == src
    {
      var parsed := ParseLines(src, classify);
      ParseIsWellFormed(src, classify);
      Lossless(src, classify);
      this.lines := parsed;
      this.classify := classify;
    }

    /** The document text. */
    method Text() returns (out: Text)
      ensures out == Render(lines)
    {
      out := [];
      for i := 0 to |lines|
        invariant out == Concat(Contents(lines[..i]))
      {
        RenderOneMore(lines, i);
        out := out + lines[i].raw + lines[i].ending.AsText();
      }
      assert lines[..|lines|] == lines;
    }

    /** The terminator new lines inherit. */
    method DominantEnding() returns (ending: LineEnding)
      ensures ending == Dominant(lines)
    {
      var crlf, lf := 0, 0;
      for i := 0 to |lines|
        invariant crlf == CountEnding(lines[..i], CrLf) && lf == CountEnding(lines[..i], Lf)
      {
        assert lines[..i + 1][..i] == lines[..i];
        match lines[i].ending
        case CrLf => crlf := crlf + 1;
        case Lf => lf := lf + 1;
        case NoEnding =>
      }
      assert lines[..|lines|] == lines;
      ending := if crlf > lf then CrLf else Lf;
    }

    /** Moves every trailing CR into an LF terminator. */
    method MoveCrs()
      modifies this`lines
      ensures lines == MoveAllCr(old(lines))
    {
      for i := 0 to |lines|
        invariant |lines| == |old(lines)|
        invariant forall j :: 0 <= j < |lines| ==> lines[j] == if j < i then MoveCr(old(lines)[j]) else old(lines)[j]
      {
        if lines[i].ending.Lf? && EndsWith(lines[i].raw, CR) {
          lines := lines[i := lines[i].(raw := DropLast(lines[i].raw), ending := CrLf)];
        }
      }
    }

    /** Recomputes every span. */
    method RecomputeSpans()
      modifies this`lines
      ensures lines == Respan(old(lines))
    {
      var offset: nat := 0;
      for i := 0 to |lines|
        invariant RespannedTo(old(lines), lines, i, offset)
      {
        var line := SpannedAt(lines[i], offset);
        RespannedOneMore(old(lines), lines, i, offset);
        lines := lines[i := line];
        offset := offset + line.Size();
      }
      assert lines[..|lines|] == lines && old(lines)[..|lines|] == old(lines);
    }

    /** Restores the canonical form without changing a rendered byte. */
    method Normalise()
      modifies this`lines
      ensures lines == Normalize(old(lines)) && Render(lines) == Render(old(lines))
    {
      MoveCrs();
      if EmptyLast(lines) {
        lines := lines[..|lines| - 1];
      }
      RecomputeSpans();
      NormalizeKeepsText(old(lines));
    }

    method InsertLineAt(idx: nat, raw: Text) returns (r: Result<(), EditError>)
      modifies this`lines
      ensures var spec := InsertLine(old(lines), classify, idx, raw);
        if spec.Ok? then r.Ok? && lines == spec.value else r == Err(spec.error) && lines == old(lines)
      ensures r.Ok? <==> idx <= |old(lines)| && 10 !in raw && 13 !in raw && 0 !in raw
      ensures r.Ok? ==>
        Render(lines) ==
          if idx == |old(lines)| && Unterminated(old(lines)) then Render(old(lines)) + Dominant(old(lines)).AsText() + raw
          else Render(old(lines)[..idx]) + (raw + Dominant(old(lines)).AsText()) + Render(old(lines)[idx..])
    {
      InsertedText(lines, classify, idx, raw);
      if !FitsOnLine(raw) {
        return Err(LineBreakInValue(raw));
      }
      if idx > |lines| {
        return Err(IndexOutOfRange(idx, |lines|));
      }
      var dominant := DominantEnding();
      var ending := dominant;
      if idx == |lines| && Unterminated(lines) {
        lines := lines[|lines| - 1 := lines[|lines| - 1].(ending := dominant)];
        ending := NoEnding;
      }
      lines := lines[..idx] + [NewLine(raw, classify, ending)] + lines[idx..];
      assert ending.NoEnding? ==> lines == WithLastEnding(old(lines), dominant) + [NewLine(raw, classify, NoEnding)];
      Normalise();
      return Ok(());
    }

    method ReplaceRawAt(idx: nat, raw: Text) returns (r: Result<(), EditError>)
      modifies this`lines
      ensures var spec := ReplaceRaw(old(lines), classify, idx, raw);
        if spec.Ok? then r.Ok? && lines == spec.value else r == Err(spec.error) && lines == old(lines)
      ensures r.Ok? <==> idx < |old(lines)| && 10 !in raw && 13 !in raw && 0 !in raw
      ensures r.Ok? ==>
        Render(lines) ==
          Render(old(lines)[..idx]) + (raw + old(lines)[idx].ending.AsText()) + Render(old(lines)[idx + 1..])
    {
      ReplacedText(lines, classify, idx, raw);
      if !FitsOnLine(raw) {
        return Err(LineBreakInValue(raw));
      }
      if idx >= |lines| {
        return Err(IndexOutOfRange(idx, |lines|));
      }
      lines := lines[idx := lines[idx].(kind := classify(raw), raw := raw)];
      Normalise();
      return Ok(());
    }

    method RemoveLineAt(idx: nat) returns (r: Result<(), EditError>)
      modifies this`lines
      ensures var spec := RemoveLine(old(lines), idx);
        if spec.Ok? then r.Ok? && lines == spec.value else r == Err(spec.error) && lines == old(lines)
      ensures r.Ok? <==> idx < |old(lines)|
      ensures r.Ok? && old(WellFormed(lines, classify)) ==>
        Render(lines) ==
          if old(lines)[idx].ending != NoEnding then Render(old(lines)[..idx]) + Render(old(lines)[idx + 1..])
          else if idx == 0 then [] else Render(old(lines)[..idx - 1]) + old(lines)[idx - 1].raw
    {
      if WellFormed(lines, classify) {
        RemovedText(lines, classify, idx);
      }
      if idx >= |lines| {
        return Err(IndexOutOfRange(idx, |lines|));
      }
      var removed := lines[idx];
      lines := lines[..idx] + lines[idx + 1..];
      if removed.ending.NoEnding? && lines != [] {
        lines := WithLastEnding(lines, NoEnding);
      }
      Normalise();
      return Ok(());
    }

    /** Replaces the lines by what the plan means for them. */
    method CarryOut(plan: EntryPlan) returns (report: EditReport)
      requires WellFormedPlan(plan)
      modifies this`lines
      ensures lines == ApplyPlan(old(lines), plan, classify)
      ensures report == EditReport(|plan.replace|, |plan.insert|, |plan.remove|)
      ensures old(WellFormed(lines, classify)) && IgnoresCr(classify) ==> WellFormed(lines, classify)
    {
      report := EditReport(|plan.replace|, |plan.insert|, |plan.remove|);
      var dominant := DominantEnding();
      var before := lines;
      lines := MergeAll(before, plan, classify, dominant);
      Normalise();
      if WellFormed(before, classify) && IgnoresCr(classify) {
        ApplyPlanIsWellFormed(before, plan, classify);
      }
    }

    /** Plans for `wanted` and carries the plan out, or leaves everything alone and says which entry stood in the way. */
    method EditEntries<T(==)>(wanted: seq<T>, parse: Parser<T>, render: Renderer<T>, opens: Text -> bool)
      returns (r: Result<EditReport, EditError>)
      modifies this`lines
      ensures r.Err? ==> lines == old(lines) && Refused(EntriesOf(old(lines), parse), wanted, render, r.error)
      ensures r.Ok? ==> EditedTo(old(lines), lines, classify, wanted, parse, render, opens, r.value)
      ensures r.Ok? && old(WellFormed(lines, classify)) && Promises(classify, parse, render, wanted) ==>
        EntriesOf(lines, parse) == wanted
      ensures old(WellFormed(lines, classify)) && wanted == EntriesOf(old(lines), parse) ==>
        lines == old(lines) && r == Ok(EditReport(0, 0, 0))
      ensures old(WellFormed(lines, classify)) && IgnoresCr(classify) ==> WellFormed(lines, classify)
      ensures r.Ok? ==> PutInPlace(old(lines), lines, classify, wanted, parse, render, opens)
    {
      var planned := PlanEntries(lines, wanted, parse, render, opens);
      if planned.Err? {
        return Err(planned.error);
      }
      var plan := planned.value;
      PlanIsWellFormed(lines, wanted, parse, render, opens, plan);
      ghost var before := lines;
      var report := CarryOut(plan);
      assert Planned(before, wanted, parse, render, opens, plan);
      EditConsequences(before, lines, classify, wanted, parse, render, opens, report);
      EditIsInPlace(before, lines, classify, wanted, parse, render, opens, report);
      return Ok(report);
    }
  }

  /** `after` is `before` with a minimal plan for `wanted` carried out, and `report` counts its edits. */
  ghost predicate EditedTo<T>(before: seq<Line>, after: seq<Line>, classify: Classifier, wanted: seq<T>, parse: Parser<T>,
                              render: Renderer<T>, opens: Text -> bool, report: EditReport)
  {
    exists plan ::
      && Planned(before, wanted, parse, render, opens, plan)
      && Minimal(EntriesOf(before, parse), wanted, plan)
      && after == ApplyPlan(before, plan, classify)
      && report == EditReport(|plan.replace|, |plan.insert|, |plan.remove|)
  }

  /** What was asked for is what is read back, and asking for the present entries changes nothing. */
  lemma {:induction false} EditConsequences<T>(before: seq<Line>, after: seq<Line>, classify: Classifier, wanted: seq<T>,
                                               parse: Parser<T>,
                                               render: Renderer<T>, opens: Text -> bool, report: EditReport)
    requires EditedTo(before, after, classify, wanted, parse, render, opens, report)
    ensures WellFormed(before, classify) && Promises(classify, parse, render, wanted) ==> EntriesOf(after, parse) == wanted
    ensures WellFormed(before, classify) && wanted == EntriesOf(before, parse) ==>
      after == before && report == EditReport(0, 0, 0)
  {
    var plan :|
      && Planned(before, wanted, parse, render, opens, plan)
      && Minimal(EntriesOf(before, parse), wanted, plan)
      && after == ApplyPlan(before, plan, classify)
      && report == EditReport(|plan.replace|, |plan.insert|, |plan.remove|);
    if WellFormed(before, classify) && Promises(classify, parse, render, wanted) {
      FidelityAlone(before, wanted, classify, parse, render, opens, plan);
    }
    if WellFormed(before, classify) && wanted == EntriesOf(before, parse) {
      OwnEntriesPlanNothing(wanted, render, Ok(plan));
      EmptyPlanIsNoop(before, classify);
    }
  }

  /** The new lines of the edit stand where they should among the merged lines that `after` comes from. */
  ghost predicate PutInPlace<T>(before: seq<Line>, after: seq<Line>, classify: Classifier, wanted: seq<T>, parse: Parser<T>,
                                render: Renderer<T>, opens: Text -> bool)
  {
    exists plan, slots, pos ::
      && after == ApplyPlan(before, plan, classify)
      && PlacedPlans.InPlace(before, wanted, classify, parse, render, opens, plan, slots, pos)
  }

  lemma {:induction false} EditIsInPlace<T>(before: seq<Line>, after: seq<Line>, classify: Classifier, wanted: seq<T>,
                                            parse: Parser<T>, render: Renderer<T>, opens: Text -> bool, report: EditReport)
    requires EditedTo(before, after, classify, wanted, parse, render, opens, report)
    ensures PutInPlace(before, after, classify, wanted, parse, render, opens)
  {
    var plan :|
      && Planned(before, wanted, parse, render, opens, plan)
      && Minimal(EntriesOf(before, parse), wanted, plan)
      && after == ApplyPlan(before, plan, classify)
      && report == EditReport(|plan.replace|, |plan.insert|, |plan.remove|);
    PlacedPlans.PlanPutsInPlace(before, wanted, classify, parse, render, opens, plan);
  }
}
