/**
 A format to try the editing theorems on, with section headers in brackets and settings with an equals sign. It
 keeps every promise they ask for, so they say something about a real file.
 */
module Ini {
  import opened Wrappers
  import opened Bytes
  import opened Lines
  import opened Edits
  import opened Entries
  import opened Planning
  import opened EditTheorems
  import Document

  const HASH: Byte := 35
  const EQUALS: Byte := 61
  const BRACKET: Byte := 91

  /** The UTF-8 forms of the characters with the Unicode property White_Space. */
  predicate IsSpace(c: Text) {
    match |c|
    case 1 => 9 <= c[0] <= 13 || c[0] == 32
    case 2 => c[0] == 0xc2 && (c[1] == 0x85 || c[1] == 0xa0)
    case 3 =>
      || c == [0xe1, 0x9a, 0x80]
      || (c[0] == 0xe2 && c[1] == 0x80 && (0x80 <= c[2] <= 0x8a || c[2] == 0xa8 || c[2] == 0xa9 || c[2] == 0xaf))
      || c == [0xe2, 0x81, 0x9f]
      || c == [0xe3, 0x80, 0x80]
    case _ => false
  }

  /** How many bytes the space at the end of `s` takes; 0 when there is none. */
  function SpaceAtEnd(s: Text): (n: nat)
    ensures n <= |s| && (n > 0 ==> IsSpace(s[|s| - n..]))
  {
    if |s| >= 1 && IsSpace(s[|s| - 1..]) then 1
    else if |s| >= 2 && IsSpace(s[|s| - 2..]) then 2
    else if |s| >= 3 && IsSpace(s[|s| - 3..]) then 3
    else 0
  }

  /** How many bytes the space at the start of `s` takes; 0 when there is none. */
  function SpaceAtStart(s: Text): (n: nat)
    ensures n <= |s| && (n > 0 ==> IsSpace(s[..n]))
  {
    if |s| >= 1 && IsSpace(s[..1]) then 1
    else if |s| >= 2 && IsSpace(s[..2]) then 2
    else if |s| >= 3 && IsSpace(s[..3]) then 3
    else 0
  }

  function TrimEnd(s: Text): Text {
    if SpaceAtEnd(s) == 0 then s else TrimEnd(s[..|s| - SpaceAtEnd(s)])
  }

  function TrimStart(s: Text): Text {
    if SpaceAtStart(s) == 0 then s else TrimStart(s[SpaceAtStart(s)..])
  }

  function Trim(s: Text): Text {
    TrimStart(TrimEnd(s))
  }

  function Classify(raw: Text): LineKind {
    if raw != [] && raw[0] == BRACKET then Directive
    else if Trim(raw) == [] then Blank
    else if raw[..1] == [HASH] then Comment
    else if EQUALS in raw then Directive
    else Unknown
  }

  function ParseEntry(raw: Text): Option<Text> {
    Some(Trim(raw))
  }

  function RenderEntry(entry: Text): Result<Text, EditError> {
    Ok(entry)
  }

  /** A header or setting without space around it. */
  predicate IsEntry(entry: Text) {
    Trim(entry) == entry && Classify(entry).Directive?
  }

  lemma {:induction false} TrimIgnoresCr(raw: Text)
    ensures Trim(raw + [CR]) == Trim(raw)
  {
    var line := raw + [CR];
    assert line[|line| - 1..] == [CR] && SpaceAtEnd(line) == 1;
    assert line[..|raw|] == raw;
  }

  lemma {:induction false} LineIgnoresCr(raw: Text)
    ensures Classify(raw + [CR]) == Classify(raw) && ParseEntry(raw + [CR]) == ParseEntry(raw)
  {
    TrimIgnoresCr(raw);
    if raw != [] {
      assert (raw + [CR])[..1] == raw[..1];
    }
  }

  /** The format ignores a trailing CR, and every entry that can be written reads back. */
  lemma {:induction false} IniKeepsPromises(wanted: seq<Text>)
    requires forall i :: 0 <= i < |wanted| ==> IsEntry(wanted[i])
    ensures IgnoresCr(Classify) && Promises(Classify, ParseEntry, RenderEntry, wanted)
  {
    forall raw: Text | LF !in raw
      ensures Classify(raw + [CR]) == Classify(raw) && ParseEntry(raw + [CR]) == ParseEntry(raw)
    {
      LineIgnoresCr(raw);
    }
  }

  /** For every text and every list of entries: what a plan makes of the file reads back as the list. */
  lemma IniFidelity(src: Text, wanted: seq<Text>, opens: Text -> bool, plan: EntryPlan)
    requires forall i :: 0 <= i < |wanted| ==> IsEntry(wanted[i])
    requires Planned(Parse(src, Classify), wanted, ParseEntry, RenderEntry, opens, plan)
    ensures EntriesOf(Parse(Render(ApplyPlan(Parse(src, Classify), plan, Classify)), Classify), ParseEntry) == wanted
  {
    IniKeepsPromises(wanted);
    ParseIsWellFormed(src, Classify);
    EditFidelity(Parse(src, Classify), wanted, Classify, ParseEntry, RenderEntry, opens, plan);
  }

  /** After a successful edit, the rendered file reads back as the wanted entries. */
  lemma {:induction false} EditedFileReadsBack(src: Text, after: seq<Line>, wanted: seq<Text>, opens: Text -> bool, report: EditReport)
    requires forall i :: 0 <= i < |wanted| ==> IsEntry(wanted[i])
    requires Document.EditedTo(Parse(src, Classify), after, Classify, wanted, ParseEntry, RenderEntry, opens, report)
    ensures EntriesOf(Parse(Render(after), Classify), ParseEntry) == wanted
  {
    var before := Parse(src, Classify);
    var plan :|
      && Planned(before, wanted, ParseEntry, RenderEntry, opens, plan)
      && Minimal(EntriesOf(before, ParseEntry), wanted, plan)
      && after == ApplyPlan(before, plan, Classify)
      && report == EditReport(|plan.replace|, |plan.insert|, |plan.remove|);
    IniFidelity(src, wanted, opens, plan);
  }

  /**
   Parse, edit, render. The edit fails only for an entry with a line break or NUL in it, and then the text is
   unchanged; otherwise the new text reads back as the wanted entries. Asked for its own entries, whatever they
   are, the file stays as it is.
   */
  method EditFile(src: Text, wanted: seq<Text>, opens: Text -> bool) returns (r: Result<EditReport, EditError>, text: Text)
    ensures (forall i :: 0 <= i < |wanted| ==> FitsOnLine(wanted[i])) ==> r.Ok?
    ensures r.Err? ==> text == src
    ensures r.Ok? && (forall i :: 0 <= i < |wanted| ==> IsEntry(wanted[i])) ==>
      EntriesOf(Parse(text, Classify), ParseEntry) == wanted
    ensures wanted == EntriesOf(Parse(src, Classify), ParseEntry) ==> text == src && r == Ok(EditReport(0, 0, 0))
  {
    var doc := new Document.Document(src, Classify);
    r := doc.EditEntries(wanted, ParseEntry, RenderEntry, opens);
    text := doc.Text();
    if r.Ok? && forall i :: 0 <= i < |wanted| ==> IsEntry(wanted[i]) {
      EditedFileReadsBack(src, doc.lines, wanted, opens, r.value);
    }
  }
}
