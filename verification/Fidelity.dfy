/**
 Edit fidelity: after a plan is carried out, the entries of the document are exactly the wanted ones,
 in order, and so are the entries read from re-parsing its text.

 The proof lays the wanted entries out by key (see `Planning.Key`): the entries that the edited rows and
 the new lines contribute at each position are the wanted entries with that key, and the keys are sorted.
 The statement allows edits of other rows in the same plan, as when plans of several flavours are joined.
 */
module Fidelity {
  import opened Wrappers
  import opened Bytes
  import opened Lines
  import opened StableSort
  import opened Edits
  import opened Entries
  import opened Planning

  // ----- what a module promises about its parser and renderer -----

  /** Every wanted entry that is written is read back from its line. */
  ghost predicate WritesBack<T>(classify: Classifier, parse: Parser<T>, render: Renderer<T>, wanted: seq<T>) {
    forall i :: 0 <= i < |wanted| && render(wanted[i]).Ok? && FitsOnLine(render(wanted[i]).value) ==>
      classify(render(wanted[i]).value).Directive? && parse(render(wanted[i]).value) == Some(wanted[i])
  }

  ghost predicate ParserIgnoresCr<T>(parse: Parser<T>) {
    forall raw: Text :: LF !in raw ==> parse(raw + [CR]) == parse(raw)
  }

  /** The empty line holds no entry. */
  ghost predicate EmptyIsNoEntry<T>(classify: Classifier, parse: Parser<T>) {
    !(classify([]).Directive? && parse([]).Some?)
  }

  // ----- slots are in row order -----

  ghost predicate Increasing(rows: seq<nat>) {
    forall i, j :: 0 <= i < j < |rows| ==> rows[i] < rows[j]
  }

  ghost predicate IncreasingSlots(slots: seq<Slot>) {
    forall i, j :: 0 <= i < j < |slots| && slots[i].OnLine? && slots[j].OnLine? ==> slots[i].row < slots[j].row
  }

  lemma IncreasingInit(ops: seq<Op>)
    requires ops != [] && Increasing(OpRows(ops))
    ensures var init, last := ops[..|ops| - 1], ops[|ops| - 1];
      Increasing(OpRows(init)) && (!last.Add? ==> forall r :: r in OpRows(init) ==> r < last.row)
  {
    var init, last := ops[..|ops| - 1], ops[|ops| - 1];
    assert forall i :: 0 <= i < |OpRows(init)| ==> OpRows(init)[i] == OpRows(ops)[i];
    if !last.Add? {
      assert OpRows(ops)[|OpRows(init)|] == last.row;
    }
  }

  lemma {:induction false} SlotsInOrder(ops: seq<Op>)
    requires Increasing(OpRows(ops))
    ensures IncreasingSlots(OpSlots(ops))
    ensures forall j :: 0 <= j < |OpSlots(ops)| && OpSlots(ops)[j].OnLine? ==> OpSlots(ops)[j].row in OpRows(ops)
    decreases |ops|
  {
    if ops != [] {
      var init := ops[..|ops| - 1];
      IncreasingInit(ops);
      SlotsInOrder(init);
      assert forall i :: 0 <= i < |OpSlots(init)| ==> OpSlots(ops)[i] == OpSlots(init)[i];
    }
  }

  // ----- keys are sorted -----

  /** The next row from slot `j` on, or the end of the document. */
  function LimitFrom(lines: seq<Line>, slots: seq<Slot>, j: nat): nat {
    match NextRow(slots, j) case Some(row) => row case None => |lines|
  }

  ghost predicate SlotsFit(lines: seq<Line>, slots: seq<Slot>) {
    IncreasingSlots(slots) && forall j :: 0 <= j < |slots| && slots[j].OnLine? ==> slots[j].row < |lines|
  }

  lemma {:induction false} NextRowIsLater(lines: seq<Line>, slots: seq<Slot>, i: nat, j: nat)
    requires SlotsFit(lines, slots) && i < j <= |slots| && slots[i].OnLine?
    ensures slots[i].row < LimitFrom(lines, slots, j) <= |lines|
    decreases |slots| - j
  {
    if j < |slots| && slots[j].NewText? {
      NextRowIsLater(lines, slots, i, j + 1);
    }
  }

  lemma {:induction false} LimitInside(lines: seq<Line>, slots: seq<Slot>, j: nat)
    requires SlotsFit(lines, slots) && j <= |slots|
    ensures LimitFrom(lines, slots, j) <= |lines|
    decreases |slots| - j
  {
    if j < |slots| && slots[j].NewText? {
      LimitInside(lines, slots, j + 1);
    }
  }

  /** The position behind the first `j` slots lies between their keys and the next row. */
  lemma {:induction false} BehindIsBetween(lines: seq<Line>, slots: seq<Slot>, opens: Text -> bool, j: nat)
    requires SlotsFit(lines, slots) && 0 < j <= |slots|
    ensures BehindSlots(lines, slots, opens, j).Some?
    ensures Key(lines, slots, opens, j - 1) <= 2 * BehindSlots(lines, slots, opens, j).value
    ensures BehindSlots(lines, slots, opens, j).value <= LimitFrom(lines, slots, j) <= |lines|
  {
    LimitInside(lines, slots, j);
    if slots[j - 1].OnLine? {
      NextRowIsLater(lines, slots, j - 1, j);
    } else if j > 1 {
      BehindIsBetween(lines, slots, opens, j - 1);
      var from := BehindSlots(lines, slots, opens, j - 1).value;
      SectionEndMeaning(lines, from, Limit(lines, slots, j - 1), opens);
    }
  }

  lemma KeyIsBehind(lines: seq<Line>, slots: seq<Slot>, opens: Text -> bool, j: nat)
    requires SlotsFit(lines, slots) && 0 < j < |slots|
    ensures Key(lines, slots, opens, j - 1) <= Key(lines, slots, opens, j) <= 2 * |lines|
  {
    BehindIsBetween(lines, slots, opens, j);
    BehindIsBetween(lines, slots, opens, j + 1);
    var from := BehindSlots(lines, slots, opens, j).value;
    if slots[j].NewText? {
      SectionEndMeaning(lines, from, Limit(lines, slots, j), opens);
    }
  }

  lemma {:induction false} KeysAreSorted(lines: seq<Line>, slots: seq<Slot>, opens: Text -> bool, i: nat, j: nat)
    requires SlotsFit(lines, slots) && i <= j < |slots|
    ensures Key(lines, slots, opens, i) <= Key(lines, slots, opens, j) <= 2 * |lines|
    decreases j
  {
    if i < j {
      KeysAreSorted(lines, slots, opens, i, j - 1);
      KeyIsBehind(lines, slots, opens, j);
    } else {
      BehindIsBetween(lines, slots, opens, j + 1);
    }
  }

  // ----- what happens to one row -----

  /**
   What the decisions say about one row: it holds slot `j`, unchanged or rewritten, or it holds none, when
   `j` is -1.
   */
  ghost predicate Fate<T>(ops: seq<Op>, made: seq<T>, lines: seq<Line>, parse: Parser<T>, render: Renderer<T>,
                          row: nat, j: int)
  {
    var rewrites := Select(OpReplace(ops), Row, row);
    && -1 <= j < |made| == |OpSlots(ops)|
    && (row in OpRemove(ops) ==> row in OpRows(ops))
    && (0 <= j <==> row in OpRows(ops) && row !in OpRemove(ops))
    && (forall i :: 0 <= i < |made| ==> (OpSlots(ops)[i] == OnLine(row) <==> i == j))
    && (if j < 0 then rewrites == []
        else if rewrites == [] then row < |lines| && EntryOf(lines[row], parse) == [made[j]]
        else |rewrites| == 1 && Writes(render, made[j], rewrites[0].1))
  }

  lemma FateOfOther<T>(ops: seq<Op>, op: Op, before: seq<T>, w: T, lines: seq<Line>, parse: Parser<T>,
                       render: Renderer<T>, row: nat, j: int)
    requires Fate(ops, before, lines, parse, render, row, j) && (op.Add? || op.row != row)
    ensures Fate(ops + [op], if op.Drop? then before else before + [w], lines, parse, render, row, j)
  {
    OpPush(ops, op);
    if op.Rewrite? {
      SelectPush(OpReplace(ops), Row, row, (op.row, op.raw));
    }
  }

  lemma {:induction false} FateOfThis<T>(ops: seq<Op>, op: Op, before: seq<T>, w: T, lines: seq<Line>, parse: Parser<T>,
                                         render: Renderer<T>)
    requires !op.Add? && op.row !in OpRows(ops) && Fate(ops, before, lines, parse, render, op.row, -1)
    requires op.Keep? ==> op.row < |lines| && EntryOf(lines[op.row], parse) == [w]
    requires op.Rewrite? ==> Writes(render, w, op.raw)
    ensures Fate(ops + [op], if op.Drop? then before else before + [w], lines, parse, render, op.row,
                 if op.Drop? then -1 else |before|)
  {
    OpPush(ops, op);
    if op.Rewrite? {
      SelectPush(OpReplace(ops), Row, op.row, (op.row, op.raw));
    }
  }

  lemma {:induction false} RowFate<T>(ops: seq<Op>, made: seq<T>, lines: seq<Line>, parse: Parser<T>,
                                      render: Renderer<T>, row: nat) returns (j: int)
    requires Makes(ops, made, lines, parse, render) && Increasing(OpRows(ops))
    ensures Fate(ops, made, lines, parse, render, row, j)
    decreases |ops|
  {
    if ops == [] {
      assert Select(OpReplace(ops), Row, row) == [];
      return -1;
    }
    var init, last := ops[..|ops| - 1], ops[|ops| - 1];
    assert ops == init + [last];
    IncreasingInit(ops);
    if last.Drop? {
      j := RowFate(init, made, lines, parse, render, row);
      if last.row != row {
        if made == [] {
          OpPush(init, last);
        } else {
          FateOfOther(init, last, made, made[0], lines, parse, render, row, j);
        }
      } else {
        OpPush(init, last);
      }
    } else {
      var before, w := made[..|made| - 1], made[|made| - 1];
      assert made == before + [w];
      j := RowFate(init, before, lines, parse, render, row);
      if last.Add? || last.row != row {
        FateOfOther(init, last, before, w, lines, parse, render, row, j);
      } else {
        FateOfThis(init, last, before, w, lines, parse, render);
        j := |before|;
      }
    }
  }

  // ----- the wanted entries by position -----

  function Keys(lines: seq<Line>, slots: seq<Slot>, opens: Text -> bool): (r: seq<nat>)
    ensures |r| == |slots| && forall j :: 0 <= j < |r| ==> r[j] == Key(lines, slots, opens, j)
  {
    seq(|slots|, j requires 0 <= j < |slots| => Key(lines, slots, opens, j))
  }

  /** The wanted entries with their keys. */
  function Items<T>(keys: seq<nat>, wanted: seq<T>): (r: seq<(nat, T)>)
    requires |keys| == |wanted|
    ensures |r| == |wanted| && forall j :: 0 <= j < |r| ==> r[j] == (keys[j], wanted[j])
  {
    seq(|wanted|, j requires 0 <= j < |wanted| == |keys| => (keys[j], wanted[j]))
  }

  /** The inserts of the first `j` slots, read off their keys. */
  function InsertsByKey(slots: seq<Slot>, keys: seq<nat>, j: nat): seq<(nat, Text)>
    requires j <= |slots| == |keys|
  {
    if j == 0 then []
    else if slots[j - 1].OnLine? then InsertsByKey(slots, keys, j - 1)
    else InsertsByKey(slots, keys, j - 1) + [(keys[j - 1] / 2, slots[j - 1].raw)]
  }

  lemma {:induction false} InsertsAreByKey(lines: seq<Line>, slots: seq<Slot>, opens: Text -> bool, j: nat)
    requires j <= |slots|
    ensures InsertsFor(lines, slots, opens, j) == InsertsByKey(slots, Keys(lines, slots, opens), j)
  {
    if j > 0 {
      InsertsAreByKey(lines, slots, opens, j - 1);
    }
  }

  function ItemKey<T>(item: (nat, T)): nat {
    item.0
  }

  function Values<T>(items: seq<(nat, T)>): (r: seq<T>)
    ensures |r| == |items| && forall j :: 0 <= j < |r| ==> r[j] == items[j].1
  {
    seq(|items|, j requires 0 <= j < |items| => items[j].1)
  }

  lemma ValuesAppend<T>(a: seq<(nat, T)>, b: seq<(nat, T)>)
    ensures Values(a + b) == Values(a) + Values(b)
  {
  }

  lemma NewLinesAppend(a: seq<(nat, Text)>, b: seq<(nat, Text)>, classify: Classifier, ending: LineEnding)
    ensures NewLines(a + b, classify, ending) == NewLines(a, classify, ending) + NewLines(b, classify, ending)
  {
  }

  /** Laying the wanted entries out by key gives them in order. */
  lemma {:induction false} WantedByKey<T>(lines: seq<Line>, slots: seq<Slot>, opens: Text -> bool, wanted: seq<T>)
    requires |slots| == |wanted| && SlotsFit(lines, slots)
    ensures Values(SelectRange(Items(Keys(lines, slots, opens), wanted), ItemKey, 0, 2 * |lines| + 1)) == wanted
  {
    var items := Items(Keys(lines, slots, opens), wanted);
    forall i, j | 0 <= i < j < |items| ensures ItemKey(items[i]) <= ItemKey(items[j]) {
      KeysAreSorted(lines, slots, opens, i, j);
    }
    forall i | 0 <= i < |items| ensures ItemKey(items[i]) < 2 * |lines| + 1 {
      KeysAreSorted(lines, slots, opens, i, i);
    }
    SortedIsItsSelection(items, ItemKey, 2 * |lines| + 1);
    assert Values(items) == wanted;
  }

  // ----- new lines -----

  predicate NoEntry<T>(raw: Text, classify: Classifier, parse: Parser<T>) {
    !(classify(raw).Directive? && parse(raw).Some?)
  }

  lemma {:induction false} NoEntriesIn<T>(edits: seq<(nat, Text)>, classify: Classifier, ending: LineEnding, parse: Parser<T>)
    requires forall i :: 0 <= i < |edits| ==> NoEntry(edits[i].1, classify, parse)
    ensures EntriesOf(NewLines(edits, classify, ending), parse) == []
  {
    if edits != [] {
      var n := |edits| - 1;
      NoEntriesIn(edits[..n], classify, ending, parse);
      assert edits == edits[..n] + [edits[n]];
      OneMoreNewLine(edits[..n], edits[n], classify, ending, parse);
    }
  }

  /** The texts of new slots are how their entries are written. */
  ghost predicate SlotsWrite<T>(slots: seq<Slot>, wanted: seq<T>, render: Renderer<T>) {
    && |slots| == |wanted|
    && forall j :: 0 <= j < |slots| && slots[j].NewText? ==> Writes(render, wanted[j], slots[j].raw)
  }

  lemma {:induction false} MadeSlotsWrite<T>(ops: seq<Op>, made: seq<T>, lines: seq<Line>, parse: Parser<T>,
                                             render: Renderer<T>)
    requires Makes(ops, made, lines, parse, render)
    ensures SlotsWrite(OpSlots(ops), made, render)
    decreases |ops|
  {
    if ops != [] {
      var init, last := ops[..|ops| - 1], ops[|ops| - 1];
      assert ops == init + [last];
      OpPush(init, last);
      if last.Drop? {
        MadeSlotsWrite(init, made, lines, parse, render);
      } else {
        var n := |made| - 1;
        MadeSlotsWrite(init, made[..n], lines, parse, render);
        OneMoreSlotWrites(OpSlots(init), if last.Add? then NewText(last.raw) else OnLine(last.row), made, render);
      }
    }
  }

  lemma OneMoreSlotWrites<T>(slots: seq<Slot>, slot: Slot, made: seq<T>, render: Renderer<T>)
    requires made != [] && SlotsWrite(slots, made[..|made| - 1], render)
    requires slot.NewText? ==> Writes(render, made[|made| - 1], slot.raw)
    ensures SlotsWrite(slots + [slot], made, render)
  {
  }

  lemma EntryOfWritten<T>(classify: Classifier, parse: Parser<T>, render: Renderer<T>, wanted: seq<T>, j: nat,
                          raw: Text, line: Line)
    requires WritesBack(classify, parse, render, wanted) && j < |wanted| && Writes(render, wanted[j], raw)
    requires line.raw == raw && line.kind == classify(raw)
    ensures EntryOf(line, parse) == [wanted[j]]
  {
  }

  /** A row's key is odd, a new line's is even. */
  ghost predicate KeyParity(slots: seq<Slot>, keys: seq<nat>) {
    |keys| == |slots| && forall j :: 0 <= j < |slots| ==> keys[j] % 2 == if slots[j].OnLine? then 1 else 0
  }

  ghost predicate InsertsAgree<T>(edits: seq<(nat, Text)>, items: seq<(nat, T)>, classify: Classifier,
                                  ending: LineEnding, parse: Parser<T>, row: nat)
  {
    EntriesOf(NewLines(Select(edits, Row, row), classify, ending), parse) == Values(Select(items, ItemKey, 2 * row))
  }

  /** The new lines planned before a row hold the wanted entries with that row's even key. */
  lemma {:induction false} InsertsAtRow<T>(slots: seq<Slot>, keys: seq<nat>, wanted: seq<T>, classify: Classifier,
                                           parse: Parser<T>, render: Renderer<T>, ending: LineEnding, row: nat, j: nat)
    requires KeyParity(slots, keys) && j <= |slots|
    requires SlotsWrite(slots, wanted, render) && WritesBack(classify, parse, render, wanted)
    ensures InsertsAgree(InsertsByKey(slots, keys, j), Items(keys, wanted)[..j], classify, ending, parse, row)
    decreases j
  {
    if j == 0 {
      assert Items(keys, wanted)[..0] == [];
    } else {
      InsertsAtRow(slots, keys, wanted, classify, parse, render, ending, row, j - 1);
      NextInsertAtRow(slots, keys, wanted, classify, parse, render, ending, row, j - 1);
    }
  }

  lemma {:induction false} NextInsertAtRow<T>(slots: seq<Slot>, keys: seq<nat>, wanted: seq<T>, classify: Classifier,
                                              parse: Parser<T>, render: Renderer<T>, ending: LineEnding, row: nat, j: nat)
    requires KeyParity(slots, keys) && j < |slots|
    requires SlotsWrite(slots, wanted, render) && WritesBack(classify, parse, render, wanted)
    requires InsertsAgree(InsertsByKey(slots, keys, j), Items(keys, wanted)[..j], classify, ending, parse, row)
    ensures InsertsAgree(InsertsByKey(slots, keys, j + 1), Items(keys, wanted)[..j + 1], classify, ending, parse, row)
  {
    var items := Items(keys, wanted);
    assert items[..j + 1] == items[..j] + [items[j]];
    if slots[j].NewText? {
      var edit := (keys[j] / 2, slots[j].raw);
      EntryOfWritten(classify, parse, render, wanted, j, edit.1, NewLine(edit.1, classify, ending));
      OneMoreInsert(InsertsByKey(slots, keys, j), edit, items[..j], items[j], classify, ending, parse, row);
    } else {
      NoMoreInsert(InsertsByKey(slots, keys, j), items[..j], items[j], classify, ending, parse, row);
    }
  }

  /** An entry that stays on its row has an odd key, so it is not among those of the new lines. */
  lemma {:induction false} NoMoreInsert<T>(edits: seq<(nat, Text)>, items: seq<(nat, T)>, item: (nat, T),
                                           classify: Classifier, ending: LineEnding, parse: Parser<T>, row: nat)
    requires InsertsAgree(edits, items, classify, ending, parse, row) && item.0 % 2 == 1
    ensures InsertsAgree(edits, items + [item], classify, ending, parse, row)
  {
    SelectPush(items, ItemKey, 2 * row, item);
  }

  lemma OneMoreInsert<T>(edits: seq<(nat, Text)>, edit: (nat, Text), items: seq<(nat, T)>, item: (nat, T),
                         classify: Classifier, ending: LineEnding, parse: Parser<T>, row: nat)
    requires InsertsAgree(edits, items, classify, ending, parse, row)
    requires item.0 == 2 * edit.0 && EntryOf(NewLine(edit.1, classify, ending), parse) == [item.1]
    ensures InsertsAgree(edits + [edit], items + [item], classify, ending, parse, row)
  {
    SelectPush(edits, Row, row, edit);
    SelectPush(items, ItemKey, 2 * row, item);
    if edit.0 == row {
      OneMoreHere(Select(edits, Row, row), edit, Select(items, ItemKey, 2 * row), item, classify, ending, parse);
    }
  }

  /** New lines that hold these items, and one more of each. */
  lemma {:induction false} OneMoreHere<T>(edits: seq<(nat, Text)>, edit: (nat, Text), items: seq<(nat, T)>, item: (nat, T),
                                          classify: Classifier, ending: LineEnding, parse: Parser<T>)
    requires EntriesOf(NewLines(edits, classify, ending), parse) == Values(items)
    requires EntryOf(NewLine(edit.1, classify, ending), parse) == [item.1]
    ensures EntriesOf(NewLines(edits + [edit], classify, ending), parse) == Values(items + [item])
  {
    OneMoreNewLine(edits, edit, classify, ending, parse);
    ValuesAppend(items, [item]);
  }

  lemma OneMoreNewLine<T>(edits: seq<(nat, Text)>, edit: (nat, Text), classify: Classifier, ending: LineEnding,
                          parse: Parser<T>)
    ensures EntriesOf(NewLines(edits + [edit], classify, ending), parse)
         == EntriesOf(NewLines(edits, classify, ending), parse) + EntryOf(NewLine(edit.1, classify, ending), parse)
  {
    assert NewLines(edits + [edit], classify, ending)[..|edits|] == NewLines(edits, classify, ending);
  }

  lemma EntriesOfOne<T>(line: Line, parse: Parser<T>)
    ensures EntriesOf([line], parse) == EntryOf(line, parse)
  {
    assert [line][..0] == [];
    assert EntriesOf([line][..0], parse) == [];
  }

  // ----- edits of other flavours -----

  /** `q` touches no entry of this flavour and writes none. */
  ghost predicate Foreign<T>(q: EntryPlan, lines: seq<Line>, classify: Classifier, parse: Parser<T>) {
    && (forall i :: 0 <= i < |q.insert| ==> NoEntry(q.insert[i].1, classify, parse))
    && (forall i :: 0 <= i < |q.replace| ==> NoEntry(q.replace[i].1, classify, parse))
    && (forall i :: 0 <= i < |q.replace| && q.replace[i].0 < |lines| ==> EntryOf(lines[q.replace[i].0], parse) == [])
    && (forall i :: 0 <= i < |q.remove| && q.remove[i] < |lines| ==> EntryOf(lines[q.remove[i]], parse) == [])
  }

  /** A plan for this flavour, joined with plans for others before and after it. */
  datatype Joint = Joint(before: EntryPlan, own: EntryPlan, later: EntryPlan) {
    function Whole(): EntryPlan {
      before.Extend(own).Extend(later)
    }
  }

  lemma {:induction false} SelectWhole<A>(a: seq<A>, b: seq<A>, c: seq<A>, key: A -> nat, k: nat)
    ensures Select(a + b + c, key, k) == Select(a, key, k) + Select(b, key, k) + Select(c, key, k)
  {
    SelectAppend(a, b, key, k);
    SelectAppend(a + b, c, key, k);
  }

  lemma {:induction false} ForeignInserts<T>(q: EntryPlan, lines: seq<Line>, classify: Classifier, parse: Parser<T>,
                                             ending: LineEnding, row: nat)
    requires Foreign(q, lines, classify, parse)
    ensures EntriesOf(NewLines(Select(q.insert, Row, row), classify, ending), parse) == []
  {
    var edits := Select(q.insert, Row, row);
    forall i | 0 <= i < |edits| ensures NoEntry(edits[i].1, classify, parse) {
      SelectIn(q.insert, Row, row, edits[i]);
    }
    NoEntriesIn(edits, classify, ending, parse);
  }

  /** Everything the argument below is about: one flavour's plan among others, and the order of its entries. */
  ghost predicate Setting<T>(lines: seq<Line>, wanted: seq<T>, classify: Classifier, parse: Parser<T>, render: Renderer<T>,
                             opens: Text -> bool, joint: Joint, ops: seq<Op>)
  {
    && PlannedBy(lines, wanted, parse, render, opens, joint.own, ops)
    && WritesBack(classify, parse, render, wanted)
    && Foreign(joint.before, lines, classify, parse) && Foreign(joint.later, lines, classify, parse)
  }

  ghost function ItemsFor<T>(lines: seq<Line>, wanted: seq<T>, opens: Text -> bool, ops: seq<Op>): seq<(nat, T)>
    requires |OpSlots(ops)| == |wanted|
  {
    Items(Keys(lines, OpSlots(ops), opens), wanted)
  }

  lemma OwnInserts<T>(lines: seq<Line>, wanted: seq<T>, classify: Classifier, parse: Parser<T>, render: Renderer<T>,
                      opens: Text -> bool, joint: Joint, ops: seq<Op>, ending: LineEnding, row: nat)
    requires Setting(lines, wanted, classify, parse, render, opens, joint, ops)
    ensures InsertsAgree(joint.own.insert, ItemsFor(lines, wanted, opens, ops), classify, ending, parse, row)
  {
    var slots := OpSlots(ops);
    var keys := Keys(lines, slots, opens);
    MadeSlotsWrite(ops, wanted, lines, parse, render);
    InsertsAreByKey(lines, slots, opens, |slots|);
    AllInsertsAtRow(slots, keys, wanted, classify, parse, render, ending, row);
  }

  lemma {:induction false} AllInsertsAtRow<T>(slots: seq<Slot>, keys: seq<nat>, wanted: seq<T>, classify: Classifier,
                                              parse: Parser<T>, render: Renderer<T>, ending: LineEnding, row: nat)
    requires KeyParity(slots, keys)
    requires SlotsWrite(slots, wanted, render) && WritesBack(classify, parse, render, wanted)
    ensures InsertsAgree(InsertsByKey(slots, keys, |slots|), Items(keys, wanted), classify, ending, parse, row)
  {
    InsertsAtRow(slots, keys, wanted, classify, parse, render, ending, row, |slots|);
    assert Items(keys, wanted)[..|slots|] == Items(keys, wanted);
  }

  lemma WholeInserts<T>(lines: seq<Line>, wanted: seq<T>, classify: Classifier, parse: Parser<T>, render: Renderer<T>,
                        opens: Text -> bool, joint: Joint, ops: seq<Op>, ending: LineEnding, row: nat)
    requires Setting(lines, wanted, classify, parse, render, opens, joint, ops)
    ensures InsertsAgree(joint.Whole().insert, ItemsFor(lines, wanted, opens, ops), classify, ending, parse, row)
  {
    var a, b, c := Select(joint.before.insert, Row, row), Select(joint.own.insert, Row, row), Select(joint.later.insert, Row, row);
    SelectWhole(joint.before.insert, joint.own.insert, joint.later.insert, Row, row);
    OwnInserts(lines, wanted, classify, parse, render, opens, joint, ops, ending, row);
    ForeignInserts(joint.before, lines, classify, parse, ending, row);
    ForeignInserts(joint.later, lines, classify, parse, ending, row);
    NewLinesAppend(a, b, classify, ending);
    NewLinesAppend(a + b, c, classify, ending);
    EntriesAppend(NewLines(a, classify, ending), NewLines(b, classify, ending), parse);
    EntriesAppend(NewLines(a + b, classify, ending), NewLines(c, classify, ending), parse);
  }

  // ----- rows -----

  lemma {:induction false} PlannedSlotsFit<T>(lines: seq<Line>, wanted: seq<T>, parse: Parser<T>, render: Renderer<T>,
                                              opens: Text -> bool,
                                              plan: EntryPlan, ops: seq<Op>)
    requires PlannedBy(lines, wanted, parse, render, opens, plan, ops)
    ensures Increasing(OpRows(ops)) && SlotsFit(lines, OpSlots(ops))
  {
    EntryRowsMeaning(lines, parse);
    SlotsInOrder(ops);
  }

  /** The wanted entry on a row, if it has one, is the only one with the row's odd key. */
  lemma {:induction false} ItemOnRow<T>(lines: seq<Line>, wanted: seq<T>, parse: Parser<T>, render: Renderer<T>,
                                        opens: Text -> bool,
                                        ops: seq<Op>, row: nat, j: int)
    requires |OpSlots(ops)| == |wanted| && Fate(ops, wanted, lines, parse, render, row, j)
    ensures Values(Select(ItemsFor(lines, wanted, opens, ops), ItemKey, 2 * row + 1)) == if j < 0 then [] else [wanted[j]]
  {
    var items := ItemsFor(lines, wanted, opens, ops);
    forall i | 0 <= i < |items| ensures ItemKey(items[i]) == 2 * row + 1 <==> i == j {
      assert OpSlots(ops)[i] == OnLine(row) <==> i == j;
    }
    if j < 0 {
      SelectNone(items, ItemKey, 2 * row + 1);
    } else {
      SelectRun(items, ItemKey, j, j + 1, 2 * row + 1);
    }
  }

  lemma {:induction false} ForeignRow<T>(q: EntryPlan, lines: seq<Line>, classify: Classifier, parse: Parser<T>, row: nat)
    requires Foreign(q, lines, classify, parse) && row < |lines|
    ensures row in q.remove ==> EntryOf(lines[row], parse) == []
    ensures var s := Select(q.replace, Row, row);
      s != [] ==> EntryOf(lines[row], parse) == [] && NoEntry(s[0].1, classify, parse)
  {
    var s := Select(q.replace, Row, row);
    if s != [] {
      SelectIn(q.replace, Row, row, s[0]);
    }
  }

  /** What the joined plan does to a row, seen by this flavour. */
  lemma {:induction false} WholeRow<T>(lines: seq<Line>, wanted: seq<T>, classify: Classifier, parse: Parser<T>,
                                       render: Renderer<T>,
                                       opens: Text -> bool, joint: Joint, ops: seq<Op>, row: nat)
    requires Setting(lines, wanted, classify, parse, render, opens, joint, ops) && row < |lines|
    ensures EntriesOf(RowAfter(lines, joint.Whole(), classify, row), parse)
         == Values(Select(ItemsFor(lines, wanted, opens, ops), ItemKey, 2 * row + 1))
  {
    PlannedSlotsFit(lines, wanted, parse, render, opens, joint.own, ops);
    var j := RowFate(ops, wanted, lines, parse, render, row);
    ItemOnRow(lines, wanted, parse, render, opens, ops, row, j);
    EntryOnRow(lines, wanted, classify, parse, render, opens, joint, ops, row, j);
  }

  /** A row that holds a slot is left alone by the other plans. */
  lemma {:induction false} RowWithSlot<T>(lines: seq<Line>, wanted: seq<T>, classify: Classifier, parse: Parser<T>,
                                          render: Renderer<T>,
                                          opens: Text -> bool, joint: Joint, ops: seq<Op>, row: nat, j: int)
    requires Setting(lines, wanted, classify, parse, render, opens, joint, ops) && row < |lines|
    requires Fate(ops, wanted, lines, parse, render, row, j) && 0 <= j
    ensures row !in joint.Whole().remove
    ensures Select(joint.Whole().replace, Row, row) == Select(OpReplace(ops), Row, row)
  {
    assert EntryOf(lines[row], parse) != [] by {
      EntryRowsMeaning(lines, parse);
    }
    LeftToOwn(joint, lines, classify, parse, row);
  }

  /** What the joined plan does to a row that holds an entry of this flavour is what its own plan does. */
  lemma {:induction false} LeftToOwn<T>(joint: Joint, lines: seq<Line>, classify: Classifier, parse: Parser<T>, row: nat)
    requires Foreign(joint.before, lines, classify, parse) && Foreign(joint.later, lines, classify, parse)
    requires row < |lines| && EntryOf(lines[row], parse) != []
    ensures row in joint.Whole().remove ==> row in joint.own.remove
    ensures Select(joint.Whole().replace, Row, row) == Select(joint.own.replace, Row, row)
  {
    ForeignRow(joint.before, lines, classify, parse, row);
    ForeignRow(joint.later, lines, classify, parse, row);
    SelectWhole(joint.before.replace, joint.own.replace, joint.later.replace, Row, row);
    assert Select(joint.Whole().replace, Row, row) == [] + Select(joint.own.replace, Row, row) + [];
  }

  /** A row that holds no slot and is not removed holds no entry of this flavour, before or after. */
  lemma {:induction false} RowWithoutSlot<T>(lines: seq<Line>, wanted: seq<T>, classify: Classifier, parse: Parser<T>,
                                             render: Renderer<T>,
                                             opens: Text -> bool, joint: Joint, ops: seq<Op>, row: nat, j: int)
    requires Setting(lines, wanted, classify, parse, render, opens, joint, ops) && row < |lines|
    requires Fate(ops, wanted, lines, parse, render, row, j) && j < 0
    requires row !in joint.Whole().remove
    ensures EntryOf(Rewritten(lines[row], Select(joint.Whole().replace, Row, row), classify), parse) == []
  {
    assert row !in joint.own.remove;
    assert EntryOf(lines[row], parse) == [] by {
      EntryRowsMeaning(lines, parse);
    }
    ForeignRow(joint.before, lines, classify, parse, row);
    ForeignRow(joint.later, lines, classify, parse, row);
    SelectWhole(joint.before.replace, joint.own.replace, joint.later.replace, Row, row);
    var a, c := Select(joint.before.replace, Row, row), Select(joint.later.replace, Row, row);
    assert Select(joint.Whole().replace, Row, row) == a + [] + c;
  }

  lemma EntryOnRow<T>(lines: seq<Line>, wanted: seq<T>, classify: Classifier, parse: Parser<T>, render: Renderer<T>,
                      opens: Text -> bool, joint: Joint, ops: seq<Op>, row: nat, j: int)
    requires Setting(lines, wanted, classify, parse, render, opens, joint, ops) && row < |lines|
    requires Fate(ops, wanted, lines, parse, render, row, j)
    ensures EntriesOf(RowAfter(lines, joint.Whole(), classify, row), parse) == if j < 0 then [] else [wanted[j]]
  {
    var rewrites := Select(joint.Whole().replace, Row, row);
    var line := Terminated(Rewritten(lines[row], rewrites, classify), Dominant(lines));
    EntriesOfOne(line, parse);
    if 0 <= j {
      RowWithSlot(lines, wanted, classify, parse, render, opens, joint, ops, row, j);
      if rewrites != [] {
        EntryOfWritten(classify, parse, render, wanted, j, rewrites[0].1, line);
      }
    } else if row !in joint.Whole().remove {
      RowWithoutSlot(lines, wanted, classify, parse, render, opens, joint, ops, row, j);
    }
  }

  // ----- the whole document -----

  /** Reading two stretches of lines together reads the one, then the other. */
  ghost predicate Additive<T>(read: seq<Line> -> seq<T>) {
    read([]) == [] && forall a, b {:trigger read(a + b)} :: read(a + b) == read(a) + read(b)
  }

  ghost function Upto<T>(part: nat -> seq<T>, n: nat): seq<T> {
    if n == 0 then [] else Upto(part, n - 1) + part(n - 1)
  }

  ghost predicate RowReads<T>(read: seq<Line> -> seq<T>, part: nat -> seq<T>, lines: seq<Line>, plan: EntryPlan,
                              classify: Classifier, row: nat)
    requires row < |lines|
  {
    && read(NewLines(Select(plan.insert, Row, row), classify, Dominant(lines))) == part(2 * row)
    && read(RowAfter(lines, plan, classify, row)) == part(2 * row + 1)
  }

  /** If every row and the lines before it read as their parts, the edited rows read as all the parts in order. */
  lemma {:induction false} RowsRead<T>(read: seq<Line> -> seq<T>, part: nat -> seq<T>, lines: seq<Line>, plan: EntryPlan,
                                       classify: Classifier, n: nat)
    requires Additive(read) && n <= |lines|
    requires forall row :: 0 <= row < n ==> RowReads(read, part, lines, plan, classify, row)
    ensures read(RowsAfter(lines, plan, classify, n)) == Upto(part, 2 * n)
    decreases n
  {
    if n > 0 {
      RowsRead(read, part, lines, plan, classify, n - 1);
      NextRowReads(read, part, lines, plan, classify, n);
    }
  }

  lemma NextRowReads<T>(read: seq<Line> -> seq<T>, part: nat -> seq<T>, lines: seq<Line>, plan: EntryPlan,
                        classify: Classifier, n: nat)
    requires Additive(read) && 0 < n <= |lines| && RowReads(read, part, lines, plan, classify, n - 1)
    requires read(RowsAfter(lines, plan, classify, n - 1)) == Upto(part, 2 * (n - 1))
    ensures read(RowsAfter(lines, plan, classify, n)) == Upto(part, 2 * n)
  {
    ReadsOn(read, part, RowsAfter(lines, plan, classify, n - 1),
            NewLines(Select(plan.insert, Row, n - 1), classify, Dominant(lines)), RowAfter(lines, plan, classify, n - 1),
            RowsAfter(lines, plan, classify, n), 2 * (n - 1), 2 * n);
  }

  lemma ReadsOn<T>(read: seq<Line> -> seq<T>, part: nat -> seq<T>, rows: seq<Line>, inserts: seq<Line>, row: seq<Line>,
                   after: seq<Line>, k: nat, hi: nat)
    requires Additive(read) && after == rows + inserts + row && hi == k + 2
    requires read(rows) == Upto(part, k) && read(inserts) == part(k) && read(row) == part(k + 1)
    ensures read(after) == Upto(part, hi)
  {
    UptoTwoMore(part, k);
  }

  lemma UptoTwoMore<T>(part: nat -> seq<T>, n: nat)
    ensures Upto(part, n + 2) == Upto(part, n) + part(n) + part(n + 1)
  {
    assert Upto(part, n + 1) == Upto(part, n) + part(n);
  }

  lemma {:induction false} MergedReads<T>(read: seq<Line> -> seq<T>, part: nat -> seq<T>, lines: seq<Line>,
                                          plan: EntryPlan, classify: Classifier)
    requires Additive(read) && read(Appended(lines, plan, classify)) == part(2 * |lines|)
    requires forall row :: 0 <= row < |lines| ==> RowReads(read, part, lines, plan, classify, row)
    ensures read(Merged(lines, plan, classify)) == Upto(part, 2 * |lines| + 1)
  {
    RowsRead(read, part, lines, plan, classify, |lines|);
  }

  /** The values of the items with a given key. */
  ghost function ByKey<T>(items: seq<(nat, T)>): nat -> seq<T> {
    (k: nat) => Values(Select(items, ItemKey, k))
  }

  ghost function Reading<T>(parse: Parser<T>): seq<Line> -> seq<T> {
    lines => EntriesOf(lines, parse)
  }

  lemma ReadingIsAdditive<T>(parse: Parser<T>)
    ensures Additive(Reading(parse))
  {
    forall a, b ensures Reading(parse)(a + b) == Reading(parse)(a) + Reading(parse)(b) {
      EntriesAppend(a, b, parse);
    }
  }

  lemma OneMoreKey<T>(items: seq<(nat, T)>, k: nat)
    ensures Values(SelectRange(items, ItemKey, 0, k + 1))
         == Values(SelectRange(items, ItemKey, 0, k)) + Values(Select(items, ItemKey, k))
  {
    SelectRangeSplit(items, ItemKey, 0, k, k + 1);
    var last := Select(items, ItemKey, k);
    assert SelectRange(items, ItemKey, k + 1, k + 1) == [];
    assert SelectRange(items, ItemKey, k, k + 1) == last;
    ValuesAppend(SelectRange(items, ItemKey, 0, k), last);
  }

  lemma {:induction false} UptoIsRange<T>(items: seq<(nat, T)>, hi: nat)
    ensures Upto(ByKey(items), hi) == Values(SelectRange(items, ItemKey, 0, hi))
    decreases hi
  {
    if hi > 0 {
      UptoIsRange(items, hi - 1);
      OneMoreKey(items, hi - 1);
    }
  }

  ghost predicate RowAgrees<T>(lines: seq<Line>, plan: EntryPlan, classify: Classifier, parse: Parser<T>,
                               items: seq<(nat, T)>, row: nat)
    requires row < |lines|
  {
    EntriesOf(RowAfter(lines, plan, classify, row), parse) == Values(Select(items, ItemKey, 2 * row + 1))
  }

  ghost predicate InsertsLaid<T>(lines: seq<Line>, plan: EntryPlan, classify: Classifier, parse: Parser<T>, items: seq<(nat, T)>) {
    forall row: nat :: InsertsAgree(plan.insert, items, classify, Dominant(lines), parse, row)
  }

  ghost predicate RowsLaid<T>(lines: seq<Line>, plan: EntryPlan, classify: Classifier, parse: Parser<T>, items: seq<(nat, T)>) {
    forall row :: 0 <= row < |lines| ==> RowAgrees(lines, plan, classify, parse, items, row)
  }

  ghost predicate KeysWithin<T>(items: seq<(nat, T)>, hi: nat) {
    forall i :: 0 <= i < |items| ==> items[i].0 <= hi
  }

  /** Every position of the edited document holds the items with its key, and no item lies past the end. */
  ghost predicate Lays<T>(lines: seq<Line>, plan: EntryPlan, classify: Classifier, parse: Parser<T>, items: seq<(nat, T)>) {
    && InsertsLaid(lines, plan, classify, parse, items)
    && RowsLaid(lines, plan, classify, parse, items)
    && KeysWithin(items, 2 * |lines|)
  }

  lemma WholeLays<T>(lines: seq<Line>, wanted: seq<T>, classify: Classifier, parse: Parser<T>, render: Renderer<T>,
                     opens: Text -> bool, joint: Joint, ops: seq<Op>)
    requires Setting(lines, wanted, classify, parse, render, opens, joint, ops)
    ensures Lays(lines, joint.Whole(), classify, parse, ItemsFor(lines, wanted, opens, ops))
  {
    var items := ItemsFor(lines, wanted, opens, ops);
    forall row: nat ensures InsertsAgree(joint.Whole().insert, items, classify, Dominant(lines), parse, row) {
      WholeInserts(lines, wanted, classify, parse, render, opens, joint, ops, Dominant(lines), row);
    }
    forall row | 0 <= row < |lines| ensures RowAgrees(lines, joint.Whole(), classify, parse, items, row) {
      WholeRow(lines, wanted, classify, parse, render, opens, joint, ops, row);
    }
    PlannedSlotsFit(lines, wanted, parse, render, opens, joint.own, ops);
    forall i | 0 <= i < |items| ensures items[i].0 <= 2 * |lines| {
      KeysAreSorted(lines, OpSlots(ops), opens, i, i);
    }
  }

  lemma RowHoldsItems<T>(lines: seq<Line>, plan: EntryPlan, classify: Classifier, parse: Parser<T>, items: seq<(nat, T)>,
                         row: nat)
    requires Lays(lines, plan, classify, parse, items) && row < |lines|
    ensures RowReads(Reading(parse), ByKey(items), lines, plan, classify, row)
  {
    assert InsertsAgree(plan.insert, items, classify, Dominant(lines), parse, row);
    assert RowAgrees(lines, plan, classify, parse, items, row);
  }

  ghost predicate Barren<T>(edits: seq<(nat, Text)>, classify: Classifier, ending: LineEnding, parse: Parser<T>) {
    EntriesOf(NewLines(edits, classify, ending), parse) == []
  }

  lemma BarrenAppend<T>(a: seq<(nat, Text)>, b: seq<(nat, Text)>, classify: Classifier, ending: LineEnding, parse: Parser<T>)
    requires Barren(a, classify, ending, parse) && Barren(b, classify, ending, parse)
    ensures Barren(a + b, classify, ending, parse)
  {
    NewLinesAppend(a, b, classify, ending);
    EntriesAppend(NewLines(a, classify, ending), NewLines(b, classify, ending), parse);
  }

  lemma {:induction false} NothingAt<T>(lines: seq<Line>, plan: EntryPlan, classify: Classifier, parse: Parser<T>,
                                        items: seq<(nat, T)>, row: nat)
    requires Lays(lines, plan, classify, parse, items) && |lines| < row
    ensures Barren(Select(plan.insert, Row, row), classify, Dominant(lines), parse)
  {
    assert InsertsAgree(plan.insert, items, classify, Dominant(lines), parse, row);
    SelectNone(items, ItemKey, 2 * row);
  }

  /** Lines inserted past the end hold no items. */
  lemma {:induction false} NothingPastEnd<T>(lines: seq<Line>, plan: EntryPlan, classify: Classifier, parse: Parser<T>,
                                             items: seq<(nat, T)>, lo: nat, hi: nat)
    requires Lays(lines, plan, classify, parse, items) && |lines| < lo
    ensures Barren(SelectRange(plan.insert, Row, lo, hi), classify, Dominant(lines), parse)
    decreases hi - lo
  {
    if lo < hi {
      NothingPastEnd(lines, plan, classify, parse, items, lo + 1, hi);
      NothingAt(lines, plan, classify, parse, items, lo);
      BarrenAppend(Select(plan.insert, Row, lo), SelectRange(plan.insert, Row, lo + 1, hi), classify, Dominant(lines), parse);
    } else {
      assert NewLines([], classify, Dominant(lines)) == [];
    }
  }

  lemma AppendedHoldItems<T>(lines: seq<Line>, plan: EntryPlan, classify: Classifier, parse: Parser<T>, items: seq<(nat, T)>)
    requires Lays(lines, plan, classify, parse, items)
    ensures Reading(parse)(Appended(lines, plan, classify)) == ByKey(items)(2 * |lines|)
  {
    var n, hi, ending := |lines|, Bound(plan.insert, Row), Dominant(lines);
    assert InsertsAgree(plan.insert, items, classify, ending, parse, n);
    if hi <= n {
      SelectNone(plan.insert, Row, n);
    } else {
      var here, rest := Select(plan.insert, Row, n), SelectRange(plan.insert, Row, n + 1, hi);
      NothingPastEnd(lines, plan, classify, parse, items, n + 1, hi);
      NewLinesAppend(here, rest, classify, ending);
      EntriesAppend(NewLines(here, classify, ending), NewLines(rest, classify, ending), parse);
    }
  }

  lemma {:induction false} MergedHoldsItems<T>(lines: seq<Line>, plan: EntryPlan, classify: Classifier, parse: Parser<T>,
                                               items: seq<(nat, T)>)
    requires Lays(lines, plan, classify, parse, items)
    ensures Reading(parse)(Merged(lines, plan, classify)) == Upto(ByKey(items), 2 * |lines| + 1)
  {
    ReadingIsAdditive(parse);
    AppendedHoldItems(lines, plan, classify, parse, items);
    forall row | 0 <= row < |lines| ensures RowReads(Reading(parse), ByKey(items), lines, plan, classify, row) {
      RowHoldsItems(lines, plan, classify, parse, items, row);
    }
    MergedReads(Reading(parse), ByKey(items), lines, plan, classify);
  }

  lemma {:induction false} UptoIsWanted<T>(lines: seq<Line>, wanted: seq<T>, parse: Parser<T>, render: Renderer<T>,
                                           opens: Text -> bool,
                                           plan: EntryPlan, ops: seq<Op>)
    requires PlannedBy(lines, wanted, parse, render, opens, plan, ops)
    ensures Upto(ByKey(ItemsFor(lines, wanted, opens, ops)), 2 * |lines| + 1) == wanted
  {
    PlannedSlotsFit(lines, wanted, parse, render, opens, plan, ops);
    WantedByKey(lines, OpSlots(ops), opens, wanted);
    UptoIsRange(ItemsFor(lines, wanted, opens, ops), 2 * |lines| + 1);
  }

  /** The merged lines hold exactly the wanted entries. */
  lemma MergedHoldsWanted<T>(lines: seq<Line>, wanted: seq<T>, classify: Classifier, parse: Parser<T>,
                             render: Renderer<T>, opens: Text -> bool, joint: Joint, ops: seq<Op>)
    requires Setting(lines, wanted, classify, parse, render, opens, joint, ops)
    ensures EntriesOf(Merged(lines, joint.Whole(), classify), parse) == wanted
  {
    var merged := Merged(lines, joint.Whole(), classify);
    WholeLays(lines, wanted, classify, parse, render, opens, joint, ops);
    MergedHoldsItems(lines, joint.Whole(), classify, parse, ItemsFor(lines, wanted, opens, ops));
    UptoIsWanted(lines, wanted, parse, render, opens, joint.own, ops);
    assert EntriesOf(merged, parse) == Reading(parse)(merged);
  }

  // ----- normalising keeps the entries -----

  lemma {:induction false} SameEntries<T>(a: seq<Line>, b: seq<Line>, parse: Parser<T>)
    requires |a| == |b| && forall i :: 0 <= i < |a| ==> EntryOf(a[i], parse) == EntryOf(b[i], parse)
    ensures EntriesOf(a, parse) == EntriesOf(b, parse)
  {
    if a != [] {
      SameEntries(a[..|a| - 1], b[..|b| - 1], parse);
    }
  }

  lemma MoveCrKeepsEntry<T>(line: Line, parse: Parser<T>)
    requires ParserIgnoresCr(parse) && LF !in line.raw
    ensures EntryOf(MoveCr(line), parse) == EntryOf(line, parse)
  {
    if MoveCr(line) != line {
      assert line.raw == MoveCr(line).raw + [CR];
    }
  }

  lemma {:induction false} NormalizeKeepsEntries<T>(lines: seq<Line>, classify: Classifier, parse: Parser<T>)
    requires Editable(lines, classify) && ParserIgnoresCr(parse) && EmptyIsNoEntry(classify, parse)
    ensures EntriesOf(Normalize(lines), parse) == EntriesOf(lines, parse)
  {
    var moved := MoveAllCr(lines);
    MoveAllCrKeepsEntries(lines, parse);
    if EmptyLast(moved) {
      var n := |lines| - 1;
      assert lines[n] == moved[n] && EntryOf(moved[n], parse) == [];
    }
    DropEmptyLastKeepsEntries(moved, parse);
    SameEntries(Respan(DropEmptyLast(moved)), DropEmptyLast(moved), parse);
  }

  lemma {:induction false} MoveAllCrKeepsEntries<T>(lines: seq<Line>, parse: Parser<T>)
    requires ParserIgnoresCr(parse) && forall i :: 0 <= i < |lines| ==> LF !in lines[i].raw
    ensures EntriesOf(MoveAllCr(lines), parse) == EntriesOf(lines, parse)
  {
    forall i | 0 <= i < |lines| ensures EntryOf(MoveAllCr(lines)[i], parse) == EntryOf(lines[i], parse) {
      MoveCrKeepsEntry(lines[i], parse);
    }
    SameEntries(MoveAllCr(lines), lines, parse);
  }

  lemma {:induction false} DropEmptyLastKeepsEntries<T>(lines: seq<Line>, parse: Parser<T>)
    requires EmptyLast(lines) ==> EntryOf(lines[|lines| - 1], parse) == []
    ensures EntriesOf(DropEmptyLast(lines), parse) == EntriesOf(lines, parse)
  {
  }

  lemma ApplyKeepsEntries<T>(lines: seq<Line>, plan: EntryPlan, classify: Classifier, parse: Parser<T>)
    requires Editable(lines, classify) && WellFormedPlan(plan)
    requires ParserIgnoresCr(parse) && EmptyIsNoEntry(classify, parse)
    ensures EntriesOf(ApplyPlan(lines, plan, classify), parse) == EntriesOf(Merged(lines, plan, classify), parse)
  {
    MergedIsClosed(lines, plan, classify);
    EndKeepsEntries(lines, Merged(lines, plan, classify), classify, parse);
  }

  lemma {:induction false} EndKeepsEntries<T>(lines: seq<Line>, merged: seq<Line>, classify: Classifier, parse: Parser<T>)
    requires Closed(merged, classify) && ParserIgnoresCr(parse) && EmptyIsNoEntry(classify, parse)
    ensures EntriesOf(Normalize(LikeOriginalEnd(lines, merged)), parse) == EntriesOf(merged, parse)
  {
    var edited := LikeOriginalEnd(lines, merged);
    SameEntries(edited, merged, parse);
    NormalizeKeepsEntries(edited, classify, parse);
  }
}
