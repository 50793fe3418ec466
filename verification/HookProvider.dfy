/**
 The hook provider: one challenge file per name, holding every current value, one per line. A file is its
 text or absent; present and delete read it, change the list, and write it back.
 */
module HookProvider {
  import opened Records
  import opened ValueStore

  // ----- the file format -----

  function StripCr(line: string): string {
    if line != [] && line[|line| - 1] == '\r' then line[..|line| - 1] else line
  }

  function FirstLf(text: string): (n: nat)
    ensures n <= |text| && (forall i :: 0 <= i < n ==> text[i] != '\n') && (n < |text| ==> text[n] == '\n')
  {
    if text == [] || text[0] == '\n' then 0 else 1 + FirstLf(text[1..])
  }

  /** The lines of a text; a CR before the LF belongs to the terminator. */
  function FileLines(text: string): seq<string> {
    if text == [] then []
    else
      var n := FirstLf(text);
      if n == |text| then [text] else [StripCr(text[..n])] + FileLines(text[n + 1..])
  }

  function NonEmpty(lines: seq<string>): seq<string> {
    if lines == [] then []
    else if lines[0] == "" then NonEmpty(lines[1..])
    else [lines[0]] + NonEmpty(lines[1..])
  }

  function ReadValues(text: string): seq<string> {
    NonEmpty(FileLines(text))
  }

  /** One value per line, with no newline at the end. */
  function Join(values: seq<string>): string {
    if values == [] then "" else if |values| == 1 then values[0] else values[0] + "\n" + Join(values[1..])
  }

  /** What a line of a file can be: not empty, and without a line feed. */
  predicate IsLine(v: string) {
    v != "" && '\n' !in v
  }

  predicate AllLines(values: seq<string>) {
    forall i :: 0 <= i < |values| ==> IsLine(values[i])
  }

  predicate EndsInCr(v: string) {
    v != "" && v[|v| - 1] == '\r'
  }

  /** No value but perhaps the last ends in a CR, which a line feed behind it would swallow. */
  predicate CrOnlyLast(values: seq<string>) {
    forall i :: 0 <= i < |values| - 1 ==> !EndsInCr(values[i])
  }

  /** No value ends in a CR. */
  predicate CrFree(values: seq<string>) {
    forall i :: 0 <= i < |values| ==> !EndsInCr(values[i])
  }

  lemma {:induction false} FirstLfOf(line: string, rest: string)
    requires '\n' !in line
    ensures FirstLf(line + "\n" + rest) == |line| && FirstLf(line) == |line|
  {
    if line != [] {
      FirstLfOf(line[1..], rest);
      assert (line + "\n" + rest)[1..] == line[1..] + "\n" + rest;
    }
  }

  lemma {:induction false} LinesAreLines(text: string)
    ensures AllLines(ReadValues(text))
  {
    if text != [] {
      var n := FirstLf(text);
      if n == |text| {
        assert ReadValues(text) == [text] by {
          assert NonEmpty([text][1..]) == [];
        }
      } else {
        LinesAreLines(text[n + 1..]);
        var line := StripCr(text[..n]);
        assert ReadValues(text) == (if line == "" then [] else [line]) + ReadValues(text[n + 1..]);
      }
    }
  }

  lemma {:induction false} OneLine(v: string)
    requires IsLine(v)
    ensures ReadValues(v) == [v]
  {
    FirstLfOf(v, "");
    assert [v][1..] == [] && NonEmpty([v][1..]) == [];
  }

  lemma {:induction false} LineThenRest(v: string, rest: string)
    requires IsLine(v)
    ensures ReadValues(v + "\n" + rest) == (if StripCr(v) == "" then [] else [StripCr(v)]) + ReadValues(rest)
  {
    var text := v + "\n" + rest;
    FirstLfOf(v, rest);
    assert text[..|v|] == v && text[|v| + 1..] == rest;
    assert FileLines(text) == [StripCr(v)] + FileLines(rest);
  }

  lemma {:induction false} ReadsNoMore(values: seq<string>)
    requires AllLines(values)
    ensures |ReadValues(Join(values))| <= |values|
  {
    if |values| == 1 {
      OneLine(values[0]);
    } else if |values| > 1 {
      ReadsNoMore(values[1..]);
      LineThenRest(values[0], Join(values[1..]));
    }
  }

  /** What is written is what is read back, exactly when no value but the last ends in a CR. */
  lemma {:induction false} WriteThenRead(values: seq<string>)
    requires AllLines(values)
    ensures ReadValues(Join(values)) == values <==> CrOnlyLast(values)
  {
    if |values| == 1 {
      OneLine(values[0]);
      assert values == [values[0]];
    } else if |values| > 1 {
      var v, rest := values[0], values[1..];
      WriteThenRead(rest);
      ReadsNoMore(rest);
      LineThenRest(v, Join(rest));
      assert values == [v] + rest && (CrOnlyLast(values) <==> !EndsInCr(v) && CrOnlyLast(rest)) by {
        CrOnlyLastOf(v, rest);
      }
      if EndsInCr(v) && StripCr(v) != "" {
        assert ([StripCr(v)] + ReadValues(Join(rest)))[0] != values[0];
      }
    }
  }

  lemma CrOnlyLastOf(v: string, rest: seq<string>)
    requires rest != []
    ensures CrOnlyLast([v] + rest) <==> !EndsInCr(v) && CrOnlyLast(rest)
  {
    var values := [v] + rest;
    if CrOnlyLast(values) {
      assert !EndsInCr(values[0]);
      forall i | 0 <= i < |rest| - 1 ensures !EndsInCr(rest[i]) {
        assert rest[i] == values[i + 1];
      }
    }
  }

  // ----- the store -----

  type Files = map<string, string>

  function ValuesAt(files: Files, name: string): seq<string> {
    if name in files then ReadValues(files[name]) else []
  }

  function PresentIn(files: Files, record: DnsRecord): Files {
    files[record.fqdn := Join(With(ValuesAt(files, record.fqdn), record.value))]
  }

  function DeleteFrom(files: Files, record: DnsRecord): Files {
    var values := ValuesAt(files, record.fqdn);
    var kept := Without(values, record.value);
    if |kept| == |values| then files
    else if kept == [] then files - {record.fqdn}
    else files[record.fqdn := Join(kept)]
  }

  function Step(files: Files, op: Op): Files {
    if op.Present? then PresentIn(files, op.record) else DeleteFrom(files, op.record)
  }

  function Run(files: Files, ops: seq<Op>): Files {
    if ops == [] then files else Step(Run(files, ops[..|ops| - 1]), ops[|ops| - 1])
  }

  lemma {:induction false} ValuesAreLines(files: Files, name: string)
    ensures AllLines(ValuesAt(files, name))
  {
    if name in files {
      LinesAreLines(files[name]);
    }
  }

  /** The list at a name after `present`, as a change of the list before. */
  ghost predicate Presents(files: Files, record: DnsRecord) {
    ValuesAt(PresentIn(files, record), record.fqdn) == With(ValuesAt(files, record.fqdn), record.value)
  }

  ghost predicate Deletes(files: Files, record: DnsRecord) {
    ValuesAt(DeleteFrom(files, record), record.fqdn) == Without(ValuesAt(files, record.fqdn), record.value)
  }

  /** For any file: `present` adds its value behind the others, once, exactly when no other value ends in a CR. */
  lemma {:induction false} PresentIff(files: Files, record: DnsRecord)
    requires ValidValue(record.value)
    ensures Presents(files, record) <==> CrOnlyLast(With(ValuesAt(files, record.fqdn), record.value))
  {
    ValuesAreLines(files, record.fqdn);
    var values := With(ValuesAt(files, record.fqdn), record.value);
    assert AllLines(values);
    WriteThenRead(values);
  }

  /** For any file: `delete` takes its value out, exactly when it is not there or no other value but the last ends in a CR. */
  lemma {:induction false} DeleteIff(files: Files, record: DnsRecord)
    ensures Deletes(files, record)
       <==> (record.value in ValuesAt(files, record.fqdn) ==> CrOnlyLast(Without(ValuesAt(files, record.fqdn), record.value)))
  {
    ValuesAreLines(files, record.fqdn);
    var values := ValuesAt(files, record.fqdn);
    var kept := Without(values, record.value);
    forall i | 0 <= i < |kept| ensures IsLine(kept[i]) {
      assert kept[i] in kept && kept[i] in values;
    }
    WriteThenRead(kept);
  }

  lemma {:induction false} CrFreeAfter(values: seq<string>, op: Op)
    requires CrFree(values) && !EndsInCr(op.record.value)
    ensures CrFree(ChangedValues(values, op))
  {
    var after := ChangedValues(values, op);
    forall i | 0 <= i < |after| ensures !EndsInCr(after[i]) {
      assert after[i] in after;
    }
  }

  /** A last value that ends in a CR loses it when another value is written behind it. */
  lemma {:induction false} CrIsSwallowed()
    ensures !Presents(map["n" := "a\r"], DnsRecord("n", "b"))
  {
    OneLine("a\r");
    PresentIff(map["n" := "a\r"], DnsRecord("n", "b"));
    assert EndsInCr(["a\r", "b"][0]);
  }

  lemma {:induction false} DeleteKeepsCrFree(files: Files, record: DnsRecord)
    requires CrFree(ValuesAt(files, record.fqdn))
    ensures Deletes(files, record)
  {
    var kept := Without(ValuesAt(files, record.fqdn), record.value);
    forall i | 0 <= i < |kept| ensures !EndsInCr(kept[i]) {
      assert kept[i] in kept;
    }
    DeleteIff(files, record);
  }

  /** One operation on a name whose values do not end in a CR. */
  lemma {:induction false} OneStep(files: Files, op: Op, name: string)
    requires CrFree(ValuesAt(files, name)) && ValidValue(op.record.value)
    ensures ValuesAt(Step(files, op), name)
         == if name == op.record.fqdn then ChangedValues(ValuesAt(files, name), op) else ValuesAt(files, name)
    ensures CrFree(ValuesAt(Step(files, op), name))
  {
    CrFreeAfter(ValuesAt(files, name), op);
    if name != op.record.fqdn {
    } else if op.Present? {
      PresentIff(files, op.record);
    } else {
      DeleteIff(files, op.record);
    }
  }

  /** A file exists at this name exactly when it holds values. */
  ghost predicate FileIffValues(files: Files, name: string) {
    name in files <==> ValuesAt(files, name) != []
  }

  lemma {:induction false} StepKeepsFileIffValues(files: Files, op: Op, name: string)
    requires CrFree(ValuesAt(files, name)) && ValidValue(op.record.value) && FileIffValues(files, name)
    ensures FileIffValues(Step(files, op), name)
  {
    OneStep(files, op, name);
    if name != op.record.fqdn {
    } else if op.Present? {
      assert op.record.value in With(ValuesAt(files, name), op.record.value);
    }
  }

  /**
   Over any interleaving the file at a name is the abstract set, for every file none of whose values ends in a CR;
   and a name that had no file, or values in it, has a file exactly as long as it has values.
   */
  lemma {:induction false} Refines(files: Files, ops: seq<Op>, name: string)
    requires CrFree(ValuesAt(files, name)) && forall i :: 0 <= i < |ops| ==> ValidValue(ops[i].record.value)
    ensures CrFree(ValuesAt(Run(files, ops), name))
    ensures AsSet(ValuesAt(Run(files, ops), name)) == AbstractRun(AsSet(ValuesAt(files, name)), ops, name)
    ensures FileIffValues(files, name) ==> FileIffValues(Run(files, ops), name)
    ensures NoDuplicates(ValuesAt(files, name)) ==> NoDuplicates(ValuesAt(Run(files, ops), name))
    decreases |ops|
  {
    if ops != [] {
      var before, op := Run(files, ops[..|ops| - 1]), ops[|ops| - 1];
      Refines(files, ops[..|ops| - 1], name);
      OneStep(before, op, name);
      StepValues(ValuesAt(before, name), op);
      if FileIffValues(before, name) {
        StepKeepsFileIffValues(before, op, name);
      }
    }
  }

  // ----- the provider -----

  class Provider {
    var files: Files

    constructor ()
      ensures files == map[]
    {
      files := map[];
    }

    method Present(record: DnsRecord)
      modifies this
      ensures files == PresentIn(old(files), record)
      ensures old(CrFree(ValuesAt(files, record.fqdn))) && ValidValue(record.value) ==>
        ValuesAt(files, record.fqdn) == With(old(ValuesAt(files, record.fqdn)), record.value)
    {
      if CrFree(ValuesAt(files, record.fqdn)) && ValidValue(record.value) {
        OneStep(files, Op.Present(record), record.fqdn);
      }
      var values := ValuesAt(files, record.fqdn);
      if record.value !in values {
        values := values + [record.value];
      }
      files := files[record.fqdn := Join(values)];
      assert files == PresentIn(old(files), record);
    }

    method Delete(record: DnsRecord)
      modifies this
      ensures files == DeleteFrom(old(files), record)
      ensures old(CrFree(ValuesAt(files, record.fqdn))) ==>
        ValuesAt(files, record.fqdn) == Without(old(ValuesAt(files, record.fqdn)), record.value)
    {
      if CrFree(ValuesAt(files, record.fqdn)) {
        DeleteKeepsCrFree(files, record);
      }
      var values := ValuesAt(files, record.fqdn);
      var kept := Without(values, record.value);
      if |kept| == |values| {
        return;
      }
      if kept == [] {
        files := files - {record.fqdn};
      } else {
        files := files[record.fqdn := Join(kept)];
      }
    }
  }
}
