/**
 What edits mean for the text of a document, byte by byte: where a line's text stands, which bytes a single-line edit
 exchanges, and which terminator new lines get.
 */
module EditedText {
  import opened Wrappers
  import opened Sequences
  import opened Bytes
  import opened Lines
  import opened Edits

  // ----- the text of parts -----

  lemma {:induction false} RenderAppend(a: seq<Line>, b: seq<Line>)
    ensures Render(a + b) == Render(a) + Render(b)
  {
    assert Contents(a + b) == Contents(a) + Contents(b);
    ConcatAppend(Contents(a), Contents(b));
  }

  lemma {:induction false} RenderOne(line: Line)
    ensures Render([line]) == line.raw + line.ending.AsText()
  {
    assert Contents([line]) == [line.Content()];
    assert [line.Content()][1..] == [] && Concat([]) == [];
  }

  /** The text around line `i`. */
  lemma {:induction false} RenderAround(lines: seq<Line>, i: nat)
    requires i < |lines|
    ensures Render(lines) == Render(lines[..i]) + lines[i].raw + (lines[i].ending.AsText() + Render(lines[i + 1..]))
  {
    ReplacedLines(lines, i, lines[i]);
    assert lines[i := lines[i]] == lines;
    RenderThree(lines[..i], lines[i], lines[i + 1..]);
    var a, b, e, c := Render(lines[..i]), lines[i].raw, lines[i].ending.AsText(), Render(lines[i + 1..]);
    Regroup(a, b + e, c);
    Regroup(b, e, c);
    Regroup(a, b, e + c);
  }

  lemma {:induction false} RespanAt(lines: seq<Line>, i: nat)
    requires i < |lines|
    ensures Respan(lines)[i] == SpannedAt(lines[i], |Render(lines[..i])|)
    decreases |lines|
  {
    var n := |lines| - 1;
    if i < n {
      RespanAt(lines[..n], i);
      assert lines[..n][..i] == lines[..i];
    } else {
      TotalSizeIsLength(lines[..n]);
    }
  }

  lemma {:induction false} TotalSizeIsLength(lines: seq<Line>)
    ensures TotalSize(lines) == |Render(lines)|
  {
    if lines != [] {
      var n := |lines| - 1;
      TotalSizeIsLength(lines[..n]);
      assert lines == lines[..n] + [lines[n]];
      RenderAppend(lines[..n], [lines[n]]);
      RenderOne(lines[n]);
    }
  }

  /** The span of a line is where its text stands in the rendered document. */
  lemma SpanIsPlace(lines: seq<Line>, classify: Classifier, i: nat)
    requires WellFormed(lines, classify) && i < |lines|
    ensures var span := lines[i].span;
      span.start <= span.end <= |Render(lines)| && Render(lines)[span.start..span.end] == lines[i].raw
  {
    RespanAt(lines, i);
    RenderAround(lines, i);
    SliceBetween(Render(lines[..i]), lines[i].raw, lines[i].ending.AsText() + Render(lines[i + 1..]), Render(lines));
  }

  lemma SliceBetween(a: Text, b: Text, c: Text, all: Text)
    requires all == a + b + c
    ensures |a| + |b| <= |all| && all[|a|..|a| + |b|] == b
  {
  }

  // ----- single-line edits -----

  lemma {:induction false} RenderThree(a: seq<Line>, line: Line, b: seq<Line>)
    ensures Render(a + [line] + b) == Render(a) + (line.raw + line.ending.AsText()) + Render(b)
  {
    RenderAppend(a + [line], b);
    RenderAppend(a, [line]);
    RenderOne(line);
  }

  lemma {:induction false} LastEndingText(lines: seq<Line>, ending: LineEnding)
    requires lines != []
    ensures var n := |lines| - 1;
      Render(WithLastEnding(lines, ending)) == Render(lines[..n]) + (lines[n].raw + ending.AsText())
  {
    var n := |lines| - 1;
    var last := lines[n].(ending := ending);
    assert WithLastEnding(lines, ending) == lines[..n] + [last];
    RenderAppend(lines[..n], [last]);
    RenderOne(last);
  }

  lemma {:induction false} UnterminatedText(lines: seq<Line>)
    requires Unterminated(lines)
    ensures var n := |lines| - 1; Render(lines) == Render(lines[..n]) + lines[n].raw
  {
    var n := |lines| - 1;
    assert WithLastEnding(lines, NoEnding) == lines;
    LastEndingText(lines, NoEnding);
    assert lines[n].raw + NoEnding.AsText() == lines[n].raw;
  }

  /** Terminating the last line of an unterminated file and appending one. */
  lemma {:induction false} AppendedText(lines: seq<Line>, dominant: LineEnding, line: Line)
    requires Unterminated(lines) && line.ending.NoEnding?
    ensures Render(WithLastEnding(lines, dominant) + [line]) == Render(lines) + dominant.AsText() + line.raw
  {
    RenderAppend(WithLastEnding(lines, dominant), [line]);
    RenderOne(line);
    assert line.raw + NoEnding.AsText() == line.raw;
    LastEndingText(lines, dominant);
    UnterminatedText(lines);
    var n := |lines| - 1;
    Regroup(Render(lines[..n]), lines[n].raw, dominant.AsText());
  }

  /** The text after an insertion, and the two ways it is refused. */
  lemma {:induction false} InsertedText(lines: seq<Line>, classify: Classifier, idx: nat, raw: Text)
    ensures InsertLine(lines, classify, idx, raw).Ok? <==> idx <= |lines| && 10 !in raw && 13 !in raw && 0 !in raw
    ensures var r := InsertLine(lines, classify, idx, raw);
      && (!FitsOnLine(raw) ==> r == Err(LineBreakInValue(raw)))
      && (FitsOnLine(raw) && idx > |lines| ==> r == Err(IndexOutOfRange(idx, |lines|)))
      && (FitsOnLine(raw) && idx <= |lines| ==>
            && r.Ok?
            && Render(r.value) ==
               if idx == |lines| && Unterminated(lines) then Render(lines) + Dominant(lines).AsText() + raw
               else Render(lines[..idx]) + (raw + Dominant(lines).AsText()) + Render(lines[idx..]))
  {
    if FitsOnLine(raw) && idx <= |lines| {
      var dominant := Dominant(lines);
      if idx == |lines| && Unterminated(lines) {
        var line := NewLine(raw, classify, NoEnding);
        NormalizeKeepsText(WithLastEnding(lines, dominant) + [line]);
        AppendedText(lines, dominant, line);
      } else {
        var line := NewLine(raw, classify, dominant);
        NormalizeKeepsText(lines[..idx] + [line] + lines[idx..]);
        RenderThree(lines[..idx], line, lines[idx..]);
      }
    }
  }

  /** The text after a replacement: line `idx` says `raw`, and nothing else differs. */
  lemma {:induction false} ReplacedText(lines: seq<Line>, classify: Classifier, idx: nat, raw: Text)
    ensures ReplaceRaw(lines, classify, idx, raw).Ok? <==> idx < |lines| && 10 !in raw && 13 !in raw && 0 !in raw
    ensures var r := ReplaceRaw(lines, classify, idx, raw);
      && (!FitsOnLine(raw) ==> r == Err(LineBreakInValue(raw)))
      && (FitsOnLine(raw) && idx >= |lines| ==> r == Err(IndexOutOfRange(idx, |lines|)))
      && (FitsOnLine(raw) && idx < |lines| ==>
            && r.Ok?
            && Render(r.value) == Render(lines[..idx]) + (raw + lines[idx].ending.AsText()) + Render(lines[idx + 1..]))
  {
    if FitsOnLine(raw) && idx < |lines| {
      var line := lines[idx].(kind := classify(raw), raw := raw);
      NormalizeKeepsText(lines[idx := line]);
      ReplacedLines(lines, idx, line);
      RenderThree(lines[..idx], line, lines[idx + 1..]);
    }
  }

  lemma ReplacedLines(lines: seq<Line>, idx: nat, line: Line)
    requires idx < |lines|
    ensures lines[idx := line] == lines[..idx] + [line] + lines[idx + 1..]
  {
  }

  /** The text after a removal: line `idx` is gone, and a last line without terminator leaves the one before it without. */
  lemma {:induction false} RemovedText(lines: seq<Line>, classify: Classifier, idx: nat)
    requires WellFormed(lines, classify)
    ensures var r := RemoveLine(lines, idx);
      && (idx >= |lines| ==> r == Err(IndexOutOfRange(idx, |lines|)))
      && (idx < |lines| ==>
            && r.Ok?
            && Render(r.value) ==
               if lines[idx].ending != NoEnding then Render(lines[..idx]) + Render(lines[idx + 1..])
               else if idx == 0 then []
               else Render(lines[..idx - 1]) + lines[idx - 1].raw)
  {
    if idx < |lines| {
      var rest := lines[..idx] + lines[idx + 1..];
      if lines[idx].ending.NoEnding? {
        assert rest == lines[..idx];
        NormalizeKeepsText(WithLastEnding(rest, NoEnding));
        CutText(lines, idx);
      } else {
        NormalizeKeepsText(rest);
        RenderAppend(lines[..idx], lines[idx + 1..]);
      }
    }
  }

  /** The text of the lines before `idx` without the last terminator. */
  lemma {:induction false} CutText(lines: seq<Line>, idx: nat)
    requires idx <= |lines|
    ensures Render(WithLastEnding(lines[..idx], NoEnding)) ==
      if idx == 0 then [] else Render(lines[..idx - 1]) + lines[idx - 1].raw
  {
    if idx > 0 {
      LastEndingText(lines[..idx], NoEnding);
      assert lines[..idx][..idx - 1] == lines[..idx - 1];
      assert lines[idx - 1].raw + NoEnding.AsText() == lines[idx - 1].raw;
    }
  }

  // ----- the dominant terminator -----

  ghost function RowsEnding(lines: seq<Line>, ending: LineEnding): set<nat> {
    set i: nat | i < |lines| && lines[i].ending == ending
  }

  lemma {:induction false} CountIsSize(lines: seq<Line>, ending: LineEnding)
    ensures CountEnding(lines, ending) == |RowsEnding(lines, ending)|
  {
    if lines != [] {
      var n := |lines| - 1;
      CountIsSize(lines[..n], ending);
      var before := RowsEnding(lines[..n], ending);
      if lines[n].ending == ending {
        assert RowsEnding(lines, ending) == before + {n};
      } else {
        assert RowsEnding(lines, ending) == before;
      }
    }
  }

  /** New lines end in CRLF exactly when more lines end in CRLF than in LF, and in LF otherwise. */
  lemma DominantMeaning(lines: seq<Line>)
    ensures var crlf, lf := set i: nat | i < |lines| && lines[i].ending == CrLf, set i: nat | i < |lines| && lines[i].ending == Lf;
      && (Dominant(lines) == CrLf <==> |crlf| > |lf|) && (Dominant(lines) == Lf <==> |crlf| <= |lf|)
      && Dominant(lines).AsText() == if |crlf| > |lf| then [13, 10] else [10]
  {
    CountIsSize(lines, CrLf);
    CountIsSize(lines, Lf);
  }
}
