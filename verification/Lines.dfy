/**
 The line-level syntax tree of `doc.rs` as a sequence of lines, with the text it stands for.

 Parsing splits the text into segments, each ending after its LF, and turns every segment into a
 line; rendering concatenates what the lines stand for. `WellFormed` is the shape that parsing
 produces, and the main result says that it is exactly the canonical form: a document is well
 formed if and only if re-parsing its rendered text gives the same document.
 */
module Lines {
  import opened Sequences
  import opened Bytes

  datatype LineEnding = Lf | CrLf | NoEnding {
    function AsText(): Text {
      match this
      case Lf => [LF]
      case CrLf => [CR, LF]
      case NoEnding => []
    }
  }

  datatype LineKind = Blank | Comment | Directive | Unknown

  datatype Span = Span(start: nat, end: nat)

  datatype Line = Line(kind: LineKind, raw: Text, ending: LineEnding, span: Span) {
    /** The bytes of the line and its terminator. */
    function Content(): Text {
      raw + ending.AsText()
    }

    function Size(): nat {
      |raw| + |ending.AsText()|
    }
  }

  type Classifier = Text -> LineKind

  // ----- segments of a text -----

  function Concat(segs: seq<Text>): Text {
    if segs == [] then [] else segs[0] + Concat(segs[1..])
  }

  /** The length of the first segment: up to and including the first LF, or everything. */
  function SegmentLength(src: Text): (n: nat)
    ensures n <= |src| && (src != [] ==> 0 < n)
  {
    if src == [] then 0 else if src[0] == LF then 1 else 1 + SegmentLength(src[1..])
  }

  function Segments(src: Text): seq<Text>
    decreases |src|
  {
    if src == [] then [] else [src[..SegmentLength(src)]] + Segments(src[SegmentLength(src)..])
  }

  /** Non-empty, with no LF before its last byte. */
  ghost predicate IsSegment(seg: Text) {
    seg != [] && forall i :: 0 <= i < |seg| - 1 ==> seg[i] != LF
  }

  ghost predicate AreSegments(segs: seq<Text>) {
    forall i :: 0 <= i < |segs| ==> IsSegment(segs[i]) && (i < |segs| - 1 ==> EndsWith(segs[i], LF))
  }

  lemma {:induction false} FirstSegment(src: Text)
    requires src != []
    ensures var n := SegmentLength(src); IsSegment(src[..n]) && (n < |src| ==> EndsWith(src[..n], LF))
  {
    if src[0] != LF && |src| > 1 {
      FirstSegment(src[1..]);
      var n := SegmentLength(src);
      assert src[..n] == [src[0]] + src[1..][..n - 1];
    }
  }

  lemma {:induction false} SegmentsOfText(src: Text)
    ensures Concat(Segments(src)) == src && AreSegments(Segments(src))
    decreases |src|
  {
    if src != [] {
      var n := SegmentLength(src);
      FirstSegment(src);
      SegmentsOfText(src[n..]);
      assert src == src[..n] + src[n..];
    }
  }

  lemma {:induction false} SegmentLengthOf(seg: Text, rest: Text)
    requires IsSegment(seg) && (rest != [] ==> EndsWith(seg, LF))
    ensures SegmentLength(seg + rest) == |seg|
  {
    if seg[0] != LF && |seg| > 1 {
      SegmentLengthOf(seg[1..], rest);
      assert (seg + rest)[1..] == seg[1..] + rest;
    } else if seg[0] != LF {
      assert seg + rest == seg;
    }
  }

  /** The segments of a text are determined by it. */
  lemma {:induction false} SegmentsOfConcat(segs: seq<Text>)
    requires AreSegments(segs)
    ensures Segments(Concat(segs)) == segs
  {
    if segs != [] {
      var seg, rest := segs[0], Concat(segs[1..]);
      if |segs| == 1 {
        assert segs[1..] == [];
      }
      SegmentLengthOf(seg, rest);
      SegmentsOfConcat(segs[1..]);
      assert (seg + rest)[..|seg|] == seg && (seg + rest)[|seg|..] == rest;
    }
  }

  lemma {:induction false} ConcatAppend(a: seq<Text>, b: seq<Text>)
    ensures Concat(a + b) == Concat(a) + Concat(b)
  {
    if a == [] {
      assert a + b == b;
    } else {
      ConcatAppend(a[1..], b);
      TailOfAppend(a, b);
      Regroup(a[0], Concat(a[1..]), Concat(b));
    }
  }

  // ----- text to lines -----

  /** The line a segment stands for: its terminator is taken off, and a CR before LF belongs to it. */
  function LineOf(seg: Text, classify: Classifier): Line {
    if !EndsWith(seg, LF) then Line(classify(seg), seg, NoEnding, Span(0, 0))
    else
      var body := DropLast(seg);
      if EndsWith(body, CR) then Line(classify(DropLast(body)), DropLast(body), CrLf, Span(0, 0))
      else Line(classify(body), body, Lf, Span(0, 0))
  }

  function LinesOf(segs: seq<Text>, classify: Classifier): (r: seq<Line>)
    ensures |r| == |segs| && forall i :: 0 <= i < |r| ==> r[i] == LineOf(segs[i], classify)
  {
    seq(|segs|, i requires 0 <= i < |segs| => LineOf(segs[i], classify))
  }

  /** The number of bytes the lines stand for. */
  function TotalSize(lines: seq<Line>): nat {
    if lines == [] then 0 else TotalSize(lines[..|lines| - 1]) + lines[|lines| - 1].Size()
  }

  function SpannedAt(line: Line, offset: nat): Line {
    line.(span := Span(offset, offset + |line.raw|))
  }

  /** Recomputes every span from the text before it. */
  function Respan(lines: seq<Line>): (r: seq<Line>)
    ensures |r| == |lines|
    ensures forall i :: 0 <= i < |r| ==> r[i] == lines[i].(span := r[i].span)
  {
    if lines == [] then []
    else
      var init := lines[..|lines| - 1];
      Respan(init) + [SpannedAt(lines[|lines| - 1], TotalSize(init))]
  }

  function Parse(src: Text, classify: Classifier): seq<Line> {
    Respan(LinesOf(Segments(src), classify))
  }

  function Contents(lines: seq<Line>): (r: seq<Text>)
    ensures |r| == |lines| && forall i :: 0 <= i < |r| ==> r[i] == lines[i].Content()
  {
    seq(|lines|, i requires 0 <= i < |lines| => lines[i].Content())
  }

  function Render(lines: seq<Line>): Text {
    Concat(Contents(lines))
  }

  // ----- the canonical form -----

  /** A line that parsing can produce. */
  ghost predicate LineOk(line: Line, classify: Classifier) {
    && LF !in line.raw
    && line.kind == classify(line.raw)
    && (line.ending.Lf? ==> !EndsWith(line.raw, CR))
    && (line.ending.NoEnding? ==> line.raw != [])
  }

  /** Every line is one that parsing can produce, only the last may lack a terminator, and spans are right. */
  ghost predicate WellFormed(lines: seq<Line>, classify: Classifier) {
    && (forall i :: 0 <= i < |lines| ==>
          LineOk(lines[i], classify) && (lines[i].ending.NoEnding? ==> i == |lines| - 1))
    && Respan(lines) == lines
  }

  ghost predicate Canonical(lines: seq<Line>, classify: Classifier) {
    lines == Parse(Render(lines), classify)
  }

  lemma LineOfSegment(seg: Text, classify: Classifier)
    requires IsSegment(seg)
    ensures var line := LineOf(seg, classify);
      LineOk(line, classify) && line.Content() == seg && (line.ending.NoEnding? <==> !EndsWith(seg, LF))
  {
  }

  lemma ContentIsSegment(line: Line, classify: Classifier)
    requires LineOk(line, classify)
    ensures IsSegment(line.Content()) && (line.ending.NoEnding? <==> !EndsWith(line.Content(), LF))
    ensures LineOf(line.Content(), classify) == line.(span := Span(0, 0))
  {
    match line.ending
    case Lf =>
      assert DropLast(line.Content()) == line.raw;
    case CrLf =>
      assert DropLast(line.Content()) == line.raw + [CR];
      assert DropLast(line.raw + [CR]) == line.raw;
    case NoEnding =>
      assert line.Content() == line.raw;
  }

  ghost predicate SameExceptSpans(a: seq<Line>, b: seq<Line>) {
    |a| == |b| && forall i :: 0 <= i < |a| ==> a[i] == b[i].(span := a[i].span)
  }

  /** Spans depend only on the texts of the lines. */
  lemma {:induction false} RespanAgain(a: seq<Line>, b: seq<Line>)
    requires SameExceptSpans(a, b)
    ensures Respan(a) == Respan(b) && TotalSize(a) == TotalSize(b)
  {
    if a != [] {
      var n := |a| - 1;
      assert a[n] == b[n].(span := a[n].span);
      RespanAgain(a[..n], b[..n]);
    }
  }

  /** Parsing yields a well-formed document. */
  lemma ParseIsWellFormed(src: Text, classify: Classifier)
    ensures WellFormed(Parse(src, classify), classify)
  {
    SegmentsOfText(src);
    var segs := Segments(src);
    var lines := LinesOf(segs, classify);
    forall i | 0 <= i < |lines|
      ensures LineOk(lines[i], classify) && (lines[i].ending.NoEnding? ==> i == |lines| - 1)
    {
      LineOfSegment(segs[i], classify);
    }
    RespanAgain(Respan(lines), lines);
  }

  /** `render(parse(s)) == s` for every text. */
  lemma Lossless(src: Text, classify: Classifier)
    ensures Render(Parse(src, classify)) == src
  {
    SegmentsOfText(src);
    var segs := Segments(src);
    var lines := Parse(src, classify);
    forall i | 0 <= i < |lines| ensures lines[i].Content() == segs[i] {
      LineOfSegment(segs[i], classify);
    }
    assert Contents(lines) == segs;
  }

  /** Re-parsing the text of a well-formed document gives the document back. */
  lemma WellFormedReparses(lines: seq<Line>, classify: Classifier)
    requires WellFormed(lines, classify)
    ensures Parse(Render(lines), classify) == lines
  {
    var segs := Contents(lines);
    forall i | 0 <= i < |lines|
      ensures IsSegment(segs[i]) && (i < |segs| - 1 ==> EndsWith(segs[i], LF))
      ensures LineOf(segs[i], classify) == lines[i].(span := Span(0, 0))
    {
      ContentIsSegment(lines[i], classify);
    }
    SegmentsOfConcat(segs);
    RespanAgain(LinesOf(segs, classify), lines);
  }

  /** The well-formed documents are exactly the canonical ones. */
  lemma CanonicalIffWellFormed(lines: seq<Line>, classify: Classifier)
    ensures Canonical(lines, classify) <==> WellFormed(lines, classify)
  {
    if WellFormed(lines, classify) {
      WellFormedReparses(lines, classify);
    }
    if Canonical(lines, classify) {
      ParseIsWellFormed(Render(lines), classify);
    }
  }

  // ----- normalising -----

  /** Moves a trailing CR into an LF terminator. */
  function MoveCr(line: Line): Line {
    if line.ending.Lf? && EndsWith(line.raw, CR) then line.(raw := DropLast(line.raw), ending := CrLf) else line
  }

  function MoveAllCr(lines: seq<Line>): (r: seq<Line>)
    ensures |r| == |lines| && forall i :: 0 <= i < |r| ==> r[i] == MoveCr(lines[i])
  {
    seq(|lines|, i requires 0 <= i < |lines| => MoveCr(lines[i]))
  }

  predicate EmptyLast(lines: seq<Line>) {
    lines != [] && lines[|lines| - 1].ending.NoEnding? && lines[|lines| - 1].raw == []
  }

  function DropEmptyLast(lines: seq<Line>): seq<Line> {
    if EmptyLast(lines) then lines[..|lines| - 1] else lines
  }

  function Normalize(lines: seq<Line>): seq<Line> {
    Respan(DropEmptyLast(MoveAllCr(lines)))
  }

  lemma MoveCrKeepsContent(line: Line)
    ensures MoveCr(line).Content() == line.Content()
  {
  }

  lemma MoveAllCrKeepsText(lines: seq<Line>)
    ensures Render(MoveAllCr(lines)) == Render(lines)
  {
    forall i | 0 <= i < |lines| ensures MoveAllCr(lines)[i].Content() == lines[i].Content() {
      MoveCrKeepsContent(lines[i]);
    }
    assert Contents(MoveAllCr(lines)) == Contents(lines);
  }

  lemma DropEmptyLastKeepsText(lines: seq<Line>)
    ensures Render(DropEmptyLast(lines)) == Render(lines)
  {
    if EmptyLast(lines) {
      var kept := lines[..|lines| - 1];
      assert lines[|lines| - 1].Content() == [];
      assert Contents(lines) == Contents(kept) + [[]];
      ConcatAppend(Contents(kept), [[]]);
    }
  }

  lemma {:induction false} RespanKeepsText(lines: seq<Line>)
    ensures Render(Respan(lines)) == Render(lines)
  {
    assert Contents(Respan(lines)) == Contents(lines);
  }

  /** Normalising changes no rendered byte, whatever the document. */
  lemma NormalizeKeepsText(lines: seq<Line>)
    ensures Render(Normalize(lines)) == Render(lines)
  {
    MoveAllCrKeepsText(lines);
    DropEmptyLastKeepsText(MoveAllCr(lines));
    RespanKeepsText(DropEmptyLast(MoveAllCr(lines)));
  }

  /** What every edit leaves behind for `Normalize`: only the last line may lack a terminator. */
  ghost predicate Editable(lines: seq<Line>, classify: Classifier) {
    forall i :: 0 <= i < |lines| ==>
      && LF !in lines[i].raw
      && lines[i].kind == classify(lines[i].raw)
      && (lines[i].ending.NoEnding? ==> i == |lines| - 1)
  }

  /** The classifier does not look at a trailing carriage return. */
  ghost predicate IgnoresCr(classify: Classifier) {
    forall raw: Text :: LF !in raw ==> classify(raw + [CR]) == classify(raw)
  }

  lemma MovedCrIsOk(line: Line, classify: Classifier)
    requires LF !in line.raw && line.kind == classify(line.raw) && IgnoresCr(classify)
    ensures var l := MoveCr(line);
      LF !in l.raw && l.kind == classify(l.raw) && (l.ending.Lf? ==> !EndsWith(l.raw, CR))
  {
    if MoveCr(line) != line {
      assert line.raw == MoveCr(line).raw + [CR];
    }
  }

  /** Normalising repairs every edited document. */
  lemma NormalizeIsWellFormed(lines: seq<Line>, classify: Classifier)
    requires Editable(lines, classify) && IgnoresCr(classify)
    ensures WellFormed(Normalize(lines), classify)
  {
    var moved := MoveAllCr(lines);
    var kept := DropEmptyLast(moved);
    forall i | 0 <= i < |kept|
      ensures LineOk(kept[i], classify) && (kept[i].ending.NoEnding? ==> i == |kept| - 1)
    {
      MovedCrIsOk(lines[i], classify);
      assert kept[i] == moved[i];
    }
    RespanAgain(Respan(kept), kept);
  }

  /** A canonical document is left as it is. */
  lemma NormalizeKeepsWellFormed(lines: seq<Line>, classify: Classifier)
    requires WellFormed(lines, classify)
    ensures Editable(lines, classify) && Normalize(lines) == lines
  {
    assert MoveAllCr(lines) == lines;
  }
}
