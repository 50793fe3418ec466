/**
 Around a new line nothing is removed: from the last entry before it that has a row up to the next kept one there is
 no other entry row. It follows from the pairing rule, which never puts a removal and an addition in one run.
 */
module Gaps {
  import opened Entries
  import opened Fidelity

  /** Some slot of these keeps a row at or behind `row`. */
  ghost predicate SlotAtOrBehind(slots: seq<Slot>, row: nat) {
    exists k :: 0 <= k < |slots| && slots[k].OnLine? && row <= slots[k].row
  }

  /** Some slot behind `j` keeps a row at or before `row`. */
  ghost predicate SlotAtOrBefore(slots: seq<Slot>, j: nat, row: nat) {
    exists k :: j < k < |slots| && slots[k].OnLine? && slots[k].row <= row
  }

  lemma PairedInit(ops: seq<Op>)
    requires ops != [] && Paired(ops)
    ensures Paired(ops[..|ops| - 1]) && (|ops| > 1 ==> MayFollow(ops[|ops| - 2], ops[|ops| - 1]))
  {
    var init := ops[..|ops| - 1];
    forall i | 0 < i < |init| ensures FollowsAt(init, i) {
      assert FollowsAt(ops, i);
    }
    if |ops| > 1 {
      assert FollowsAt(ops, |ops| - 1);
    }
  }

  /** The slots of the decisions but the last. */
  lemma {:induction false} SlotsOfInit(ops: seq<Op>)
    requires ops != []
    ensures var init, last := ops[..|ops| - 1], ops[|ops| - 1];
      && OpSlots(init) <= OpSlots(ops)
      && (last.Drop? ==> OpSlots(ops) == OpSlots(init))
      && (!last.Drop? ==> OpSlots(ops) == OpSlots(init) + [if last.Add? then NewText(last.raw) else OnLine(last.row)])
  {
  }

  /** Unless the last decision is a removal, every entry row lies at or before the row of a slot. */
  lemma {:induction false} RowsBefore(ops: seq<Op>, row: nat)
    requires Paired(ops) && Increasing(OpRows(ops)) && row in OpRows(ops) && !ops[|ops| - 1].Drop?
    ensures SlotAtOrBehind(OpSlots(ops), row)
    decreases |ops|
  {
    var init, last := ops[..|ops| - 1], ops[|ops| - 1];
    PairedInit(ops);
    IncreasingInit(ops);
    SlotsOfInit(ops);
    if last.Add? {
      RowsBefore(init, row);
      var k :| 0 <= k < |OpSlots(init)| && OpSlots(init)[k].OnLine? && row <= OpSlots(init)[k].row;
      assert OpSlots(ops)[k] == OpSlots(init)[k];
    } else {
      assert OpSlots(ops)[|OpSlots(init)|] == OnLine(last.row);
    }
  }

  /** The decision that made slot `j`. */
  lemma {:induction false} DecisionOf(ops: seq<Op>, j: nat) returns (a: nat)
    requires j < |OpSlots(ops)|
    ensures a < |ops| && OpSlots(ops[..a]) == OpSlots(ops)[..j] && (OpSlots(ops)[j].NewText? ==> ops[a].Add?)
    decreases |ops|
  {
    var init := ops[..|ops| - 1];
    SlotsOfInit(ops);
    if j < |OpSlots(init)| {
      a := DecisionOf(init, j);
      assert init[..a] == ops[..a];
    } else {
      a := |ops| - 1;
    }
  }

  /** What was decided after the addition at `a`: additions, and from the next kept entry on anything. */
  ghost predicate After(ops: seq<Op>, a: nat, j: nat, row: nat)
    requires a <= |ops|
  {
    row in OpRows(ops[..a]) || SlotAtOrBefore(OpSlots(ops), j, row)
  }

  /** Nothing but additions since, or an entry that keeps its row. */
  ghost predicate AddsOrKept(ops: seq<Op>, j: nat) {
    ops != [] && (ops[|ops| - 1].Add? || exists k :: j < k < |OpSlots(ops)| && OpSlots(ops)[k].OnLine?)
  }

  lemma {:induction false} RowsAfterAdd(ops: seq<Op>, a: nat, j: nat)
    requires Paired(ops) && Increasing(OpRows(ops)) && a < |ops| && ops[a].Add? && j == |OpSlots(ops[..a])|
    ensures AddsOrKept(ops, j) && j < |OpSlots(ops)|
    ensures forall row :: row in OpRows(ops) ==> After(ops, a, j, row)
    decreases |ops|
  {
    if a < |ops| - 1 {
      var init := ops[..|ops| - 1];
      PairedInit(ops);
      IncreasingInit(ops);
      assert init[..a] == ops[..a];
      RowsAfterAdd(init, a, j);
      SlotsOfInit(ops);
      KeptStays(init, ops, j);
      forall row | row in OpRows(ops) ensures After(ops, a, j, row) {
        OneMoreRow(ops, a, j, row);
      }
    } else {
      SlotsOfInit(ops);
    }
  }

  lemma {:induction false} KeptStays(init: seq<Op>, ops: seq<Op>, j: nat)
    requires ops != [] && init == ops[..|ops| - 1] && init != [] && AddsOrKept(init, j) && OpSlots(init) <= OpSlots(ops)
    requires MayFollow(init[|init| - 1], ops[|ops| - 1]) && j < |OpSlots(init)|
    ensures AddsOrKept(ops, j)
  {
    var last := ops[|ops| - 1];
    SlotsOfInit(ops);
    if k :| j < k < |OpSlots(init)| && OpSlots(init)[k].OnLine? {
      assert OpSlots(ops)[k] == OpSlots(init)[k];
    } else if !last.Add? {
      assert OpSlots(ops)[|OpSlots(init)|] == OnLine(last.row);
    }
  }

  lemma {:induction false} OneMoreRow(ops: seq<Op>, a: nat, j: nat, row: nat)
    requires a < |ops| - 1 && row in OpRows(ops) && Increasing(OpRows(ops)) && j < |OpSlots(ops[..|ops| - 1])|
    requires var init := ops[..|ops| - 1];
      AddsOrKept(init, j) && MayFollow(init[|init| - 1], ops[|ops| - 1]) && init[..a] == ops[..a] &&
      (row in OpRows(init) ==> After(init, a, j, row))
    ensures After(ops, a, j, row)
  {
    var init, last := ops[..|ops| - 1], ops[|ops| - 1];
    SlotsOfInit(ops);
    if row in OpRows(init) {
      if SlotAtOrBefore(OpSlots(init), j, row) {
        var k :| j < k < |OpSlots(init)| && OpSlots(init)[k].OnLine? && OpSlots(init)[k].row <= row;
        assert OpSlots(ops)[k] == OpSlots(init)[k];
      }
    } else if last.Drop? {
      var k :| j < k < |OpSlots(init)| && OpSlots(init)[k].OnLine?;
      IncreasingInit(ops);
      SlotsInOrder(init);
      assert OpSlots(ops)[k] == OpSlots(init)[k] && OpSlots(init)[k].row in OpRows(init);
    } else {
      assert OpSlots(ops)[|OpSlots(init)|] == OnLine(last.row);
    }
  }

  /** An entry row lies at or before the row of a slot in front of new line `j`, or at or behind one that comes later. */
  lemma {:induction false} AroundNewLine(ops: seq<Op>, j: nat, row: nat)
    requires Paired(ops) && Increasing(OpRows(ops)) && j < |OpSlots(ops)| && OpSlots(ops)[j].NewText? && row in OpRows(ops)
    ensures SlotAtOrBehind(OpSlots(ops)[..j], row) || SlotAtOrBefore(OpSlots(ops), j, row)
  {
    var a := DecisionOf(ops, j);
    RowsAfterAdd(ops, a, j);
    assert After(ops, a, j, row);
    if row in OpRows(ops[..a]) {
      PrefixIsPaired(ops, a);
      RowsBefore(ops[..a], row);
    }
  }

  /** What was decided before an addition is paired, in order, and does not end in a removal. */
  lemma {:induction false} PrefixIsPaired(ops: seq<Op>, a: nat)
    requires Paired(ops) && Increasing(OpRows(ops)) && a < |ops| && ops[a].Add?
    ensures Paired(ops[..a]) && Increasing(OpRows(ops[..a])) && (a > 0 ==> !ops[a - 1].Drop?)
    decreases |ops|
  {
    PairedInit(ops);
    IncreasingInit(ops);
    if a < |ops| - 1 {
      var init := ops[..|ops| - 1];
      PrefixIsPaired(init, a);
      assert init[..a] == ops[..a];
    }
  }
}
