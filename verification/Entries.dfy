/**
 The entries of a document: its Directive lines that a module's parser accepts.

 The decisions of a plan are recorded as operations on entry rows in row order; the three edit
 streams of the plan, and the slot of every wanted entry, are projections of that record.
 */
module Entries {
  import opened Wrappers
  import opened Sequences
  import opened Bytes
  import opened Lines
  import opened Edits

  type Parser<!T> = Text -> Option<T>
  type Renderer<!T> = T -> Result<Text, EditError>

  /** The entry on one line, if it has one. */
  function EntryOf<T>(line: Line, parse: Parser<T>): seq<T> {
    if line.kind.Directive? && parse(line.raw).Some? then [parse(line.raw).value] else []
  }

  function EntriesOf<T>(lines: seq<Line>, parse: Parser<T>): seq<T> {
    if lines == [] then [] else EntriesOf(lines[..|lines| - 1], parse) + EntryOf(lines[|lines| - 1], parse)
  }

  /** The rows that hold an entry, in order. */
  function EntryRows<T>(lines: seq<Line>, parse: Parser<T>): seq<nat> {
    if lines == [] then []
    else
      var n := |lines| - 1;
      if EntryOf(lines[n], parse) == [] then EntryRows(lines[..n], parse) else EntryRows(lines[..n], parse) + [n]
  }

  /** `rows` are, in order, the rows that hold an entry, and `entries` are those entries. */
  ghost predicate Locates<T>(lines: seq<Line>, parse: Parser<T>, rows: seq<nat>, entries: seq<T>) {
    && |rows| == |entries|
    && (forall i :: 0 <= i < |rows| ==> rows[i] < |lines| && EntryOf(lines[rows[i]], parse) == [entries[i]])
    && (forall i, j :: 0 <= i < j < |rows| ==> rows[i] < rows[j])
    && (forall row :: 0 <= row < |lines| ==> (row in rows <==> EntryOf(lines[row], parse) != []))
  }

  lemma {:induction false} LocatesOne<T>(lines: seq<Line>, line: Line, w: T, parse: Parser<T>, rows: seq<nat>, entries: seq<T>)
    requires Locates(lines, parse, rows, entries) && EntryOf(line, parse) == [w]
    ensures Locates(lines + [line], parse, rows + [|lines|], entries + [w])
  {
    var all := rows + [|lines|];
    forall row | 0 <= row <= |lines| ensures row in all <==> row in rows || row == |lines| {
    }
  }

  lemma {:induction false} LastEntry<T>(lines: seq<Line>, parse: Parser<T>)
    requires lines != []
    ensures var init, last := lines[..|lines| - 1], lines[|lines| - 1];
      && lines == init + [last]
      && (if EntryOf(last, parse) == []
          then EntryRows(lines, parse) == EntryRows(init, parse) && EntriesOf(lines, parse) == EntriesOf(init, parse)
          else
            && EntryOf(last, parse) == [parse(last.raw).value]
            && EntryRows(lines, parse) == EntryRows(init, parse) + [|init|]
            && EntriesOf(lines, parse) == EntriesOf(init, parse) + [parse(last.raw).value])
  {
    assert EntriesOf(lines[..|lines| - 1], parse) + [] == EntriesOf(lines[..|lines| - 1], parse);
  }

  lemma {:induction false} LocatesEntries<T>(lines: seq<Line>, parse: Parser<T>)
    ensures Locates(lines, parse, EntryRows(lines, parse), EntriesOf(lines, parse))
    decreases |lines|
  {
    if lines != [] {
      var init, last := lines[..|lines| - 1], lines[|lines| - 1];
      LocatesEntries(init, parse);
      LastEntry(lines, parse);
      if EntryOf(last, parse) == [] {
      } else {
        LocatesOne(init, last, parse(last.raw).value, parse, EntryRows(init, parse), EntriesOf(init, parse));
      }
    }
  }

  lemma {:induction false} EntryRowsMeaning<T>(lines: seq<Line>, parse: Parser<T>)
    ensures |EntryRows(lines, parse)| == |EntriesOf(lines, parse)|
    ensures forall i :: 0 <= i < |EntryRows(lines, parse)| ==>
      EntryRows(lines, parse)[i] < |lines| && EntryOf(lines[EntryRows(lines, parse)[i]], parse) == [EntriesOf(lines, parse)[i]]
    ensures forall i, j :: 0 <= i < j < |EntryRows(lines, parse)| ==> EntryRows(lines, parse)[i] < EntryRows(lines, parse)[j]
    ensures forall row :: 0 <= row < |lines| ==> (row in EntryRows(lines, parse) <==> EntryOf(lines[row], parse) != [])
  {
    LocatesEntries(lines, parse);
  }

  lemma {:induction false} EntriesAppend<T>(a: seq<Line>, b: seq<Line>, parse: Parser<T>)
    ensures EntriesOf(a + b, parse) == EntriesOf(a, parse) + EntriesOf(b, parse)
  {
    if b == [] {
      assert a + b == a;
    } else {
      var n := |b| - 1;
      EntriesAppend(a, b[..n], parse);
      InitOfAppend(a, b);
      Regroup(EntriesOf(a, parse), EntriesOf(b[..n], parse), EntryOf(b[n], parse));
    }
  }

  // ----- the decisions of a plan -----

  datatype Op =
    | Keep(row: nat)
    | Rewrite(row: nat, raw: Text)
    | Drop(row: nat)
    | Add(raw: Text)

  /** Where one wanted entry ends up. */
  datatype Slot = OnLine(row: nat) | NewText(raw: Text)

  function OpRows(ops: seq<Op>): seq<nat> {
    if ops == [] then []
    else if ops[|ops| - 1].Add? then OpRows(ops[..|ops| - 1])
    else OpRows(ops[..|ops| - 1]) + [ops[|ops| - 1].row]
  }

  function OpReplace(ops: seq<Op>): seq<(nat, Text)> {
    if ops == [] then []
    else if ops[|ops| - 1].Rewrite? then OpReplace(ops[..|ops| - 1]) + [(ops[|ops| - 1].row, ops[|ops| - 1].raw)]
    else OpReplace(ops[..|ops| - 1])
  }

  function OpRemove(ops: seq<Op>): seq<nat> {
    if ops == [] then []
    else if ops[|ops| - 1].Drop? then OpRemove(ops[..|ops| - 1]) + [ops[|ops| - 1].row]
    else OpRemove(ops[..|ops| - 1])
  }

  function OpSlots(ops: seq<Op>): seq<Slot> {
    if ops == [] then []
    else
      match ops[|ops| - 1]
      case Keep(row) => OpSlots(ops[..|ops| - 1]) + [OnLine(row)]
      case Rewrite(row, _) => OpSlots(ops[..|ops| - 1]) + [OnLine(row)]
      case Drop(_) => OpSlots(ops[..|ops| - 1])
      case Add(raw) => OpSlots(ops[..|ops| - 1]) + [NewText(raw)]
  }

  function CountKeeps(ops: seq<Op>): nat {
    if ops == [] then 0 else CountKeeps(ops[..|ops| - 1]) + if ops[|ops| - 1].Keep? then 1 else 0
  }

  function CountNew(slots: seq<Slot>): nat {
    if slots == [] then 0 else CountNew(slots[..|slots| - 1]) + if slots[|slots| - 1].NewText? then 1 else 0
  }

  /**
   After a kept entry the rewrites come first, in order; then, up to the next kept one, either only removals
   follow or only additions: a line is removed, or a new one added, only when there is nothing left to pair it with.
   */
  predicate MayFollow(previous: Op, op: Op) {
    op.Keep? || ((previous.Drop? ==> op.Drop?) && (previous.Add? ==> op.Add?))
  }

  ghost predicate FollowsAt(ops: seq<Op>, i: nat)
    requires 0 < i < |ops|
  {
    MayFollow(ops[i - 1], ops[i])
  }

  ghost predicate Paired(ops: seq<Op>) {
    forall i :: 0 < i < |ops| ==> FollowsAt(ops, i)
  }

  /** `op` may be decided next. */
  ghost predicate MayPush(ops: seq<Op>, op: Op) {
    ops == [] || MayFollow(ops[|ops| - 1], op)
  }

  lemma PairedPush(ops: seq<Op>, op: Op)
    requires Paired(ops) && MayPush(ops, op)
    ensures Paired(ops + [op])
  {
    forall i | 0 < i < |ops + [op]| ensures FollowsAt(ops + [op], i) {
      if i < |ops| {
        assert FollowsAt(ops, i);
      }
    }
  }

  /** No run of changes holds both a removed line and a new one, and none rewrites a line behind either. */
  lemma {:induction false} PairedMeaning(ops: seq<Op>, i: nat, j: nat)
    requires Paired(ops) && i < j < |ops| && !ops[j].Keep?
    requires (ops[i].Drop? && !ops[j].Drop?) || (ops[i].Add? && !ops[j].Add?)
    ensures exists k :: i < k < j && ops[k].Keep?
    decreases j
  {
    assert FollowsAt(ops, j);
    if i < j - 1 && !ops[j - 1].Keep? {
      PairedMeaning(ops, i, j - 1);
    }
  }

  /** `raw` is how `w` is written. */
  ghost predicate Writes<T>(render: Renderer<T>, w: T, raw: Text) {
    render(w) == Ok(raw) && FitsOnLine(raw)
  }

  /** Carrying out `ops` makes exactly the entries `wanted`, in order. */
  ghost predicate Makes<T>(ops: seq<Op>, wanted: seq<T>, lines: seq<Line>, parse: Parser<T>, render: Renderer<T>)
    decreases |ops|
  {
    if ops == [] then wanted == []
    else
      var init, last := ops[..|ops| - 1], ops[|ops| - 1];
      if last.Drop? then Makes(init, wanted, lines, parse, render)
      else
        && wanted != []
        && (if last.Keep? then last.row < |lines| && EntryOf(lines[last.row], parse) == [wanted[|wanted| - 1]]
            else Writes(render, wanted[|wanted| - 1], last.raw))
        && Makes(init, wanted[..|wanted| - 1], lines, parse, render)
  }

  lemma {:induction false} OpPush(ops: seq<Op>, op: Op)
    ensures OpRows(ops + [op]) == if op.Add? then OpRows(ops) else OpRows(ops) + [op.row]
    ensures OpReplace(ops + [op]) == if op.Rewrite? then OpReplace(ops) + [(op.row, op.raw)] else OpReplace(ops)
    ensures OpRemove(ops + [op]) == if op.Drop? then OpRemove(ops) + [op.row] else OpRemove(ops)
    ensures OpSlots(ops + [op]) ==
      if op.Drop? then OpSlots(ops) else OpSlots(ops) + [if op.Add? then NewText(op.raw) else OnLine(op.row)]
    ensures CountKeeps(ops + [op]) == CountKeeps(ops) + if op.Keep? then 1 else 0
  {
    assert (ops + [op])[..|ops|] == ops;
  }

  lemma {:induction false} CountNewPush(slots: seq<Slot>, slot: Slot)
    ensures CountNew(slots + [slot]) == CountNew(slots) + if slot.NewText? then 1 else 0
  {
    assert (slots + [slot])[..|slots|] == slots;
  }

  lemma {:induction false} OpCounts<T>(ops: seq<Op>, made: seq<T>, lines: seq<Line>, parse: Parser<T>, render: Renderer<T>)
    requires Makes(ops, made, lines, parse, render)
    ensures |OpSlots(ops)| == |made|
    ensures |OpRows(ops)| == CountKeeps(ops) + |OpReplace(ops)| + |OpRemove(ops)|
    ensures |made| == CountKeeps(ops) + |OpReplace(ops)| + CountNew(OpSlots(ops))
    decreases |ops|
  {
    if ops != [] {
      var init, last := ops[..|ops| - 1], ops[|ops| - 1];
      OpCounts(init, if last.Drop? then made else made[..|made| - 1], lines, parse, render);
      if last.Drop? {
        assert OpSlots(ops) == OpSlots(init);
      } else {
        CountNewPush(OpSlots(init), if last.Add? then NewText(last.raw) else OnLine(last.row));
      }
    }
  }
}
