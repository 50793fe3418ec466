/**
 The five editing invariants of the configuration modules, for every document and every wanted list:
 a plan is well formed, what was asked for is what is read back, applying a document's own entries
 changes nothing, and an entry whose text does not stay on one line is never written.
 */
module EditTheorems {
  import opened Wrappers
  import opened Bytes
  import opened Lines
  import opened StableSort
  import opened Edits
  import opened Entries
  import opened Planning
  import opened Fidelity

  // ----- plans are well formed -----

  lemma {:induction false} RemovesInOrder(ops: seq<Op>)
    requires Increasing(OpRows(ops))
    ensures Increasing(OpRemove(ops)) && forall r :: r in OpRemove(ops) ==> r in OpRows(ops)
    decreases |ops|
  {
    if ops != [] {
      IncreasingInit(ops);
      var removed := OpRemove(ops[..|ops| - 1]);
      RemovesInOrder(ops[..|ops| - 1]);
      assert forall i :: 0 <= i < |removed| ==> OpRemove(ops)[i] == removed[i] && removed[i] in removed;
    }
  }

  /** A rewritten row is rewritten once, to a text that stays on its line, and is not removed. */
  lemma {:induction false} RewriteOnce<T>(ops: seq<Op>, made: seq<T>, lines: seq<Line>, parse: Parser<T>,
                                          render: Renderer<T>, i: nat)
    requires Makes(ops, made, lines, parse, render) && Increasing(OpRows(ops)) && i < |OpReplace(ops)|
    ensures var edit := OpReplace(ops)[i];
      && FitsOnLine(edit.1) && edit.0 in OpRows(ops) && edit.0 !in OpRemove(ops)
      && Select(OpReplace(ops), Row, edit.0) == [edit]
      && exists j :: 0 <= j < |made| && Writes(render, made[j], edit.1)
  {
    var edit := OpReplace(ops)[i];
    var j := RowFate(ops, made, lines, parse, render, edit.0);
    SelectIn(OpReplace(ops), Row, edit.0, edit);
  }

  lemma {:induction false} ReplacesDistinct<T>(ops: seq<Op>, made: seq<T>, lines: seq<Line>, parse: Parser<T>,
                                               render: Renderer<T>)
    requires Makes(ops, made, lines, parse, render) && Increasing(OpRows(ops))
    ensures DistinctKeys(OpReplace(ops), Row)
  {
    var edits := OpReplace(ops);
    forall i, j | 0 <= i < j < |edits| ensures Row(edits[i]) != Row(edits[j]) {
      if Row(edits[i]) == Row(edits[j]) {
        TwoSelected(edits, Row, i, j);
        RewriteOnce(ops, made, lines, parse, render, i);
      }
    }
  }

  lemma {:induction false} InsertsFit(lines: seq<Line>, slots: seq<Slot>, opens: Text -> bool, j: nat, e: (nat, Text))
    requires j <= |slots| && e in InsertsFor(lines, slots, opens, j)
    ensures exists i :: 0 <= i < j && slots[i] == NewText(e.1)
  {
    if slots[j - 1].OnLine? || e in InsertsFor(lines, slots, opens, j - 1) {
      InsertsFit(lines, slots, opens, j - 1, e);
    } else {
      assert slots[j - 1] == NewText(e.1);
    }
  }

  /** Every new line of a plan is how some wanted entry is written. */
  lemma InsertIsWritten<T>(lines: seq<Line>, wanted: seq<T>, parse: Parser<T>, render: Renderer<T>,
                           opens: Text -> bool, plan: EntryPlan, ops: seq<Op>, i: nat)
    requires PlannedBy(lines, wanted, parse, render, opens, plan, ops) && i < |plan.insert|
    ensures exists j :: 0 <= j < |wanted| && Writes(render, wanted[j], plan.insert[i].1)
  {
    MadeSlotsWrite(ops, wanted, lines, parse, render);
    InsertsFit(lines, OpSlots(ops), opens, |wanted|, plan.insert[i]);
  }

  /** Planning names each row at most once, only entry rows, and only writes text that stays on its line. */
  lemma {:induction false} PlanIsWellFormed<T>(lines: seq<Line>, wanted: seq<T>, parse: Parser<T>, render: Renderer<T>,
                                               opens: Text -> bool, plan: EntryPlan)
    requires Planned(lines, wanted, parse, render, opens, plan)
    ensures WellFormedPlan(plan)
    ensures forall i :: 0 <= i < |plan.replace| ==> plan.replace[i].0 in EntryRows(lines, parse)
    ensures forall i :: 0 <= i < |plan.remove| ==> plan.remove[i] in EntryRows(lines, parse)
  {
    var ops :| PlannedBy(lines, wanted, parse, render, opens, plan, ops);
    PlannedSlotsFit(lines, wanted, parse, render, opens, plan, ops);
    ReplacesDistinct(ops, wanted, lines, parse, render);
    RemovesInOrder(ops);
    forall i | 0 <= i < |plan.replace|
      ensures FitsOnLine(plan.replace[i].1) && plan.replace[i].0 in EntryRows(lines, parse)
      ensures plan.replace[i].0 !in plan.remove
    {
      RewriteOnce(ops, wanted, lines, parse, render, i);
    }
    forall i | 0 <= i < |plan.insert| ensures FitsOnLine(plan.insert[i].1) {
      InsertIsWritten(lines, wanted, parse, render, opens, plan, ops, i);
    }
  }

  // ----- edit fidelity -----

  /** What a module promises about one flavour of entries. */
  ghost predicate Promises<T>(classify: Classifier, parse: Parser<T>, render: Renderer<T>, wanted: seq<T>) {
    && WritesBack(classify, parse, render, wanted)
    && ParserIgnoresCr(parse)
    && EmptyIsNoEntry(classify, parse)
  }

  lemma EmptyIsForeign<T>(lines: seq<Line>, classify: Classifier, parse: Parser<T>)
    ensures Foreign(EmptyPlan, lines, classify, parse)
  {
  }

  lemma ExtendEmpty(own: EntryPlan, other: EntryPlan)
    ensures Joint(EmptyPlan, own, other).Whole() == own.Extend(other)
    ensures Joint(own, other, EmptyPlan).Whole() == own.Extend(other)
    ensures own.Extend(EmptyPlan) == own
  {
  }

  /** One flavour's plan, carried out together with plans that leave its entries alone. */
  lemma JointFidelity<T>(lines: seq<Line>, wanted: seq<T>, classify: Classifier, parse: Parser<T>, render: Renderer<T>,
                         opens: Text -> bool, joint: Joint, whole: EntryPlan)
    requires WellFormed(lines, classify) && Promises(classify, parse, render, wanted)
    requires Planned(lines, wanted, parse, render, opens, joint.own) && whole == joint.Whole() && WellFormedPlan(whole)
    requires Foreign(joint.before, lines, classify, parse) && Foreign(joint.later, lines, classify, parse)
    ensures EntriesOf(ApplyPlan(lines, whole, classify), parse) == wanted
  {
    var ops :| PlannedBy(lines, wanted, parse, render, opens, joint.own, ops);
    NormalizeKeepsWellFormed(lines, classify);
    MergedHoldsWanted(lines, wanted, classify, parse, render, opens, joint, ops);
    ApplyKeepsEntries(lines, whole, classify, parse);
  }

  lemma FidelityAlone<T>(lines: seq<Line>, wanted: seq<T>, classify: Classifier, parse: Parser<T>, render: Renderer<T>,
                         opens: Text -> bool, plan: EntryPlan)
    requires WellFormed(lines, classify) && Promises(classify, parse, render, wanted)
    requires Planned(lines, wanted, parse, render, opens, plan)
    ensures EntriesOf(ApplyPlan(lines, plan, classify), parse) == wanted
  {
    assert WellFormedPlan(plan) by {
      PlanIsWellFormed(lines, wanted, parse, render, opens, plan);
    }
    ExtendEmpty(plan, EmptyPlan);
    EmptyIsForeign(lines, classify, parse);
    JointFidelity(lines, wanted, classify, parse, render, opens, Joint(EmptyPlan, plan, EmptyPlan), plan);
  }

  /** The entries of the edited document, and of its re-parsed text, are exactly the wanted ones. */
  lemma EditFidelity<T>(lines: seq<Line>, wanted: seq<T>, classify: Classifier, parse: Parser<T>, render: Renderer<T>,
                        opens: Text -> bool, plan: EntryPlan)
    requires WellFormed(lines, classify) && IgnoresCr(classify) && Promises(classify, parse, render, wanted)
    requires Planned(lines, wanted, parse, render, opens, plan)
    ensures EntriesOf(ApplyPlan(lines, plan, classify), parse) == wanted
    ensures EntriesOf(Parse(Render(ApplyPlan(lines, plan, classify)), classify), parse) == wanted
  {
    FidelityAlone(lines, wanted, classify, parse, render, opens, plan);
    PlanIsWellFormed(lines, wanted, parse, render, opens, plan);
    ApplyPlanIsWellFormed(lines, plan, classify);
    CanonicalIffWellFormed(ApplyPlan(lines, plan, classify), classify);
  }

  // ----- own entries: nothing to do -----

  lemma {:induction false} NothingPlanned(lines: seq<Line>, classify: Classifier, n: nat)
    requires n <= |lines|
    ensures |RowsAfter(lines, EmptyPlan, classify, n)| == n
    ensures forall i :: 0 <= i < n ==> RowsAfter(lines, EmptyPlan, classify, n)[i] == Terminated(lines[i], Dominant(lines))
  {
    if n > 0 {
      NothingPlanned(lines, classify, n - 1);
    }
  }

  /** The empty plan leaves a canonical document as it is. */
  lemma EmptyPlanIsNoop(lines: seq<Line>, classify: Classifier)
    requires WellFormed(lines, classify)
    ensures ApplyPlan(lines, EmptyPlan, classify) == lines
  {
    NothingPlanned(lines, classify, |lines|);
    var merged := Merged(lines, EmptyPlan, classify);
    assert Appended(lines, EmptyPlan, classify) == [];
    assert merged == RowsAfter(lines, EmptyPlan, classify, |lines|);
    assert LikeOriginalEnd(lines, merged) == lines;
    NormalizeKeepsWellFormed(lines, classify);
  }

  /** Asking again for what was just made always succeeds, plans nothing and leaves the document identical. */
  lemma SecondEditIsNoop<T>(lines: seq<Line>, wanted: seq<T>, classify: Classifier, parse: Parser<T>, render: Renderer<T>,
                            opens: Text -> bool, first: EntryPlan, second: Result<EntryPlan, EditError>)
    requires WellFormed(lines, classify) && IgnoresCr(classify) && Promises(classify, parse, render, wanted)
    requires Planned(lines, wanted, parse, render, opens, first)
    requires Answers(EntriesOf(ApplyPlan(lines, first, classify), parse), wanted, render, second)
    ensures second == Ok(EmptyPlan)
    ensures ApplyPlan(ApplyPlan(lines, first, classify), EmptyPlan, classify) == ApplyPlan(lines, first, classify)
  {
    EditFidelity(lines, wanted, classify, parse, render, opens, first);
    PlanIsWellFormed(lines, wanted, parse, render, opens, first);
    ApplyPlanIsWellFormed(lines, first, classify);
    OwnEntriesPlanNothing(wanted, render, second);
    EmptyPlanIsNoop(ApplyPlan(lines, first, classify), classify);
  }

  // ----- nothing breaks out of its line -----

  lemma {:induction false} MadeIsKeptOrWritten<T>(ops: seq<Op>, made: seq<T>, lines: seq<Line>, parse: Parser<T>,
                                                  render: Renderer<T>, i: nat)
    requires Makes(ops, made, lines, parse, render) && i < |made|
    ensures (exists raw :: Writes(render, made[i], raw)) || exists row :: 0 <= row < |lines| && EntryOf(lines[row], parse) == [made[i]]
    decreases |ops|
  {
    var init, last := ops[..|ops| - 1], ops[|ops| - 1];
    if last.Drop? {
      MadeIsKeptOrWritten(init, made, lines, parse, render, i);
    } else if i < |made| - 1 {
      MadeIsKeptOrWritten(init, made[..|made| - 1], lines, parse, render, i);
    }
  }

  /** A wanted entry whose text would break its line, and which the document does not hold yet, is refused. */
  lemma InjectionIsRefused<T>(lines: seq<Line>, wanted: seq<T>, parse: Parser<T>, render: Renderer<T>,
                              opens: Text -> bool, plan: EntryPlan, i: nat)
    requires i < |wanted| && (forall row :: 0 <= row < |lines| ==> EntryOf(lines[row], parse) != [wanted[i]])
    requires render(wanted[i]).Ok? ==> !FitsOnLine(render(wanted[i]).value)
    ensures !Planned(lines, wanted, parse, render, opens, plan)
  {
    if Planned(lines, wanted, parse, render, opens, plan) {
      var ops :| PlannedBy(lines, wanted, parse, render, opens, plan, ops);
      MadeIsKeptOrWritten(ops, wanted, lines, parse, render, i);
    }
  }
}
