/**
 Several flavours of entries in one file, as the resolver module has them: each flavour plans its own edits with
 its own parser, renderer and section headers, the plans are joined, and one pass carries them out.
 */
module Flavours {
  import opened Bytes
  import opened Lines
  import opened StableSort
  import opened Edits
  import opened Entries
  import opened Planning
  import opened Fidelity
  import opened EditTheorems

  /** One flavour: what it wants, how it reads and writes its entries, and the plan it made for the document. */
  datatype Flavour<!T> = Flavour(wanted: seq<T>, parse: Parser<T>, render: Renderer<T>, opens: Text -> bool, plan: EntryPlan)

  /** The flavour keeps its promises, and its plan was made for these lines. */
  ghost predicate Ready<T>(f: Flavour<T>, lines: seq<Line>, classify: Classifier) {
    && Promises(classify, f.parse, f.render, f.wanted)
    && Planned(lines, f.wanted, f.parse, f.render, f.opens, f.plan)
  }

  /** `reader` refuses every line that `writer` would write. */
  ghost predicate RefusesLinesOf<A, B>(reader: Flavour<A>, writer: Flavour<B>) {
    forall i :: 0 <= i < |writer.wanted| && writer.render(writer.wanted[i]).Ok? ==>
      reader.parse(writer.render(writer.wanted[i]).value).None?
  }

  /** No line of the document is an entry of both flavours, and neither reads what the other writes. */
  ghost predicate Apart<A, B>(a: Flavour<A>, b: Flavour<B>, lines: seq<Line>) {
    && (forall i :: 0 <= i < |lines| ==> a.parse(lines[i].raw).None? || b.parse(lines[i].raw).None?)
    && RefusesLinesOf(a, b) && RefusesLinesOf(b, a)
  }

  // ----- a plan of one flavour, seen by another -----

  /** The rows of one flavour are not rows of the other. */
  lemma {:induction false} RowsApart<A, B>(a: Flavour<A>, b: Flavour<B>, lines: seq<Line>, row: nat)
    requires Apart(a, b, lines) && row in EntryRows(lines, b.parse)
    ensures row < |lines| && EntryOf(lines[row], a.parse) == [] && row !in EntryRows(lines, a.parse)
  {
    EntryRowsMeaning(lines, a.parse);
    EntryRowsMeaning(lines, b.parse);
  }

  lemma {:induction false} WritesNothingFor<A, B>(a: Flavour<A>, b: Flavour<B>, lines: seq<Line>, classify: Classifier)
    requires Apart(a, b, lines) && Ready(b, lines, classify)
    ensures forall i :: 0 <= i < |b.plan.insert| ==> NoEntry(b.plan.insert[i].1, classify, a.parse)
    ensures forall i :: 0 <= i < |b.plan.replace| ==> NoEntry(b.plan.replace[i].1, classify, a.parse)
  {
    var ops :| PlannedBy(lines, b.wanted, b.parse, b.render, b.opens, b.plan, ops);
    PlannedSlotsFit(lines, b.wanted, b.parse, b.render, b.opens, b.plan, ops);
    forall i | 0 <= i < |b.plan.insert| ensures NoEntry(b.plan.insert[i].1, classify, a.parse) {
      InsertIsWritten(lines, b.wanted, b.parse, b.render, b.opens, b.plan, ops, i);
    }
    forall i | 0 <= i < |b.plan.replace| ensures NoEntry(b.plan.replace[i].1, classify, a.parse) {
      RewriteOnce(ops, b.wanted, lines, b.parse, b.render, i);
    }
  }

  /** The plan of one flavour leaves the entries of the other alone. */
  lemma {:induction false} PlanIsForeign<A, B>(a: Flavour<A>, b: Flavour<B>, lines: seq<Line>, classify: Classifier)
    requires Apart(a, b, lines) && Ready(b, lines, classify)
    ensures Foreign(b.plan, lines, classify, a.parse)
  {
    WritesNothingFor(a, b, lines, classify);
    PlanIsWellFormed(lines, b.wanted, b.parse, b.render, b.opens, b.plan);
    forall row: nat | row in EntryRows(lines, b.parse) ensures row < |lines| && EntryOf(lines[row], a.parse) == [] {
      RowsApart(a, b, lines, row);
    }
  }

  lemma {:induction false} ForeignTogether<T>(a: EntryPlan, b: EntryPlan, lines: seq<Line>, classify: Classifier, parse: Parser<T>)
    requires Foreign(a, lines, classify, parse) && Foreign(b, lines, classify, parse)
    ensures Foreign(a.Extend(b), lines, classify, parse)
  {
  }

  // ----- joined plans are well formed -----

  /** The plan rewrites or removes this row. */
  ghost predicate Touches(plan: EntryPlan, row: nat) {
    row in plan.remove || exists i :: 0 <= i < |plan.replace| && plan.replace[i].0 == row
  }

  ghost predicate Disjoint(a: EntryPlan, b: EntryPlan) {
    forall row: nat :: !(Touches(a, row) && Touches(b, row))
  }

  lemma {:induction false} JoinedIsWellFormed(a: EntryPlan, b: EntryPlan)
    requires WellFormedPlan(a) && WellFormedPlan(b) && Disjoint(a, b)
    ensures WellFormedPlan(a.Extend(b))
  {
    forall i | 0 <= i < |a.replace| ensures Touches(a, a.replace[i].0) {
    }
    forall i | 0 <= i < |b.replace| ensures Touches(b, b.replace[i].0) {
    }
    forall i | 0 <= i < |a.remove| ensures Touches(a, a.remove[i]) {
    }
    forall i | 0 <= i < |b.remove| ensures Touches(b, b.remove[i]) {
    }
    var w := a.Extend(b);
    assert DistinctKeys(w.replace, Row);
    assert DistinctKeys(w.remove, Itself);
  }

  /** A plan touches only rows that hold entries of its flavour. */
  lemma {:induction false} TouchesOwnRows<T>(f: Flavour<T>, lines: seq<Line>, classify: Classifier, row: nat)
    requires Ready(f, lines, classify) && Touches(f.plan, row)
    ensures row in EntryRows(lines, f.parse)
  {
    PlanIsWellFormed(lines, f.wanted, f.parse, f.render, f.opens, f.plan);
  }

  lemma {:induction false} PlansAreDisjoint<A, B>(a: Flavour<A>, b: Flavour<B>, lines: seq<Line>, classify: Classifier)
    requires Ready(a, lines, classify) && Ready(b, lines, classify) && Apart(a, b, lines)
    ensures Disjoint(a.plan, b.plan)
  {
    forall row: nat | Touches(a.plan, row) && Touches(b.plan, row) ensures false {
      TouchesOwnRows(a, lines, classify, row);
      TouchesOwnRows(b, lines, classify, row);
      RowsApart(a, b, lines, row);
    }
  }

  // ----- two, three, any number of flavours -----

  /** After `plan`, the document holds exactly what the flavour wants, and so does its text once re-parsed. */
  ghost predicate Satisfies<T>(f: Flavour<T>, lines: seq<Line>, classify: Classifier, plan: EntryPlan) {
    && EntriesOf(ApplyPlan(lines, plan, classify), f.parse) == f.wanted
    && (IgnoresCr(classify) ==> EntriesOf(Parse(Render(ApplyPlan(lines, plan, classify)), classify), f.parse) == f.wanted)
  }

  /** A flavour gets what it wants beside any plans that leave its entries alone. */
  lemma {:induction false} SatisfiedBeside<T>(f: Flavour<T>, before: EntryPlan, later: EntryPlan, lines: seq<Line>,
                                              classify: Classifier)
    requires WellFormed(lines, classify) && Ready(f, lines, classify)
    requires Foreign(before, lines, classify, f.parse) && Foreign(later, lines, classify, f.parse)
    requires WellFormedPlan(before.Extend(f.plan).Extend(later))
    ensures Satisfies(f, lines, classify, before.Extend(f.plan).Extend(later))
  {
    var joint := Joint(before, f.plan, later);
    JointFidelity(lines, f.wanted, classify, f.parse, f.render, f.opens, joint, joint.Whole());
    if IgnoresCr(classify) {
      ApplyPlanIsWellFormed(lines, joint.Whole(), classify);
      WellFormedReparses(ApplyPlan(lines, joint.Whole(), classify), classify);
    }
  }

  /** Plans for two flavours, joined and carried out in one pass, give each flavour exactly what it asked for. */
  lemma {:induction false} TwoFlavours<A, B>(lines: seq<Line>, classify: Classifier, a: Flavour<A>, b: Flavour<B>)
    requires WellFormed(lines, classify)
    requires Ready(a, lines, classify) && Ready(b, lines, classify) && Apart(a, b, lines)
    ensures WellFormedPlan(a.plan.Extend(b.plan))
    ensures Satisfies(a, lines, classify, a.plan.Extend(b.plan)) && Satisfies(b, lines, classify, a.plan.Extend(b.plan))
  {
    PlanIsWellFormed(lines, a.wanted, a.parse, a.render, a.opens, a.plan);
    PlanIsWellFormed(lines, b.wanted, b.parse, b.render, b.opens, b.plan);
    PlansAreDisjoint(a, b, lines, classify);
    JoinedIsWellFormed(a.plan, b.plan);
    PlanIsForeign(a, b, lines, classify);
    PlanIsForeign(b, a, lines, classify);
    ExtendEmpty(a.plan, b.plan);
    EmptyIsForeign(lines, classify, a.parse);
    EmptyIsForeign(lines, classify, b.parse);
    SatisfiedBeside(a, EmptyPlan, b.plan, lines, classify);
    SatisfiedBeside(b, a.plan, EmptyPlan, lines, classify);
  }

  /** The plans of a list of flavours, joined in order. */
  function Joined<T>(fs: seq<Flavour<T>>): EntryPlan {
    if fs == [] then EmptyPlan else Joined(fs[..|fs| - 1]).Extend(fs[|fs| - 1].plan)
  }

  ghost predicate AllReady<T>(fs: seq<Flavour<T>>, lines: seq<Line>, classify: Classifier) {
    && (forall i :: 0 <= i < |fs| ==> Ready(fs[i], lines, classify))
    && (forall i, j :: 0 <= i < |fs| && 0 <= j < |fs| && i != j ==> Apart(fs[i], fs[j], lines))
  }

  lemma {:induction false} JoinedAppend<T>(a: seq<Flavour<T>>, b: seq<Flavour<T>>)
    ensures Joined(a + b) == Joined(a).Extend(Joined(b))
    decreases |b|
  {
    if b == [] {
      assert a + b == a;
      ExtendEmpty(Joined(a), EmptyPlan);
    } else {
      var n := |b| - 1;
      JoinedAppend(a, b[..n]);
      assert (a + b)[..|a| + n] == a + b[..n];
      ExtendThrice(Joined(a), Joined(b[..n]), b[n].plan);
    }
  }

  lemma ExtendThrice(a: EntryPlan, b: EntryPlan, c: EntryPlan)
    ensures a.Extend(b).Extend(c) == a.Extend(b.Extend(c))
  {
  }

  lemma {:induction false} JoinedAround<T>(fs: seq<Flavour<T>>, i: nat)
    requires i < |fs|
    ensures Joined(fs) == Joined(fs[..i]).Extend(fs[i].plan).Extend(Joined(fs[i + 1..]))
  {
    assert fs[..i + 1][..i] == fs[..i] && fs[..i + 1] + fs[i + 1..] == fs;
    JoinedAppend(fs[..i + 1], fs[i + 1..]);
  }

  lemma {:induction false} JoinedIsForeign<A, T>(a: Flavour<A>, fs: seq<Flavour<T>>, lines: seq<Line>, classify: Classifier)
    requires forall i :: 0 <= i < |fs| ==> Ready(fs[i], lines, classify) && Apart(a, fs[i], lines)
    ensures Foreign(Joined(fs), lines, classify, a.parse)
    decreases |fs|
  {
    if fs == [] {
      EmptyIsForeign(lines, classify, a.parse);
    } else {
      var n := |fs| - 1;
      JoinedIsForeign(a, fs[..n], lines, classify);
      PlanIsForeign(a, fs[n], lines, classify);
      ForeignTogether(Joined(fs[..n]), fs[n].plan, lines, classify, a.parse);
    }
  }

  lemma {:induction false} JoinedIsDisjoint<A, T>(a: Flavour<A>, fs: seq<Flavour<T>>, lines: seq<Line>, classify: Classifier)
    requires Ready(a, lines, classify)
    requires forall i :: 0 <= i < |fs| ==> Ready(fs[i], lines, classify) && Apart(fs[i], a, lines)
    ensures Disjoint(Joined(fs), a.plan)
    decreases |fs|
  {
    if fs != [] {
      var n := |fs| - 1;
      JoinedIsDisjoint(a, fs[..n], lines, classify);
      PlansAreDisjoint(fs[n], a, lines, classify);
    }
  }

  lemma {:induction false} AllJoinedIsWellFormed<T>(fs: seq<Flavour<T>>, lines: seq<Line>, classify: Classifier)
    requires AllReady(fs, lines, classify)
    ensures WellFormedPlan(Joined(fs))
    decreases |fs|
  {
    if fs != [] {
      var n := |fs| - 1;
      var f := fs[n];
      AllJoinedIsWellFormed(fs[..n], lines, classify);
      PlanIsWellFormed(lines, f.wanted, f.parse, f.render, f.opens, f.plan);
      JoinedIsDisjoint(f, fs[..n], lines, classify);
      JoinedIsWellFormed(Joined(fs[..n]), f.plan);
    }
  }

  /**
   Plans for any number of pairwise apart flavours, joined in order and carried out in one pass, give each
   flavour exactly what it asked for. Flavours of different entry types share the sum of the types.
   */
  lemma {:induction false} ManyFlavours<T>(lines: seq<Line>, classify: Classifier, fs: seq<Flavour<T>>, i: nat)
    requires WellFormed(lines, classify) && AllReady(fs, lines, classify) && i < |fs|
    ensures WellFormedPlan(Joined(fs)) && Satisfies(fs[i], lines, classify, Joined(fs))
  {
    AllJoinedIsWellFormed(fs, lines, classify);
    JoinedAround(fs, i);
    JoinedIsForeign(fs[i], fs[..i], lines, classify);
    JoinedIsForeign(fs[i], fs[i + 1..], lines, classify);
    SatisfiedBeside(fs[i], Joined(fs[..i]), Joined(fs[i + 1..]), lines, classify);
  }

  lemma {:induction false} ThreeAreWellFormed<A, B, C>(lines: seq<Line>, classify: Classifier, a: Flavour<A>, b: Flavour<B>,
                                                       c: Flavour<C>)
    requires Ready(a, lines, classify) && Ready(b, lines, classify) && Ready(c, lines, classify)
    requires Apart(a, b, lines) && Apart(a, c, lines) && Apart(b, c, lines)
    ensures WellFormedPlan(a.plan.Extend(b.plan).Extend(c.plan))
  {
    PlanIsWellFormed(lines, a.wanted, a.parse, a.render, a.opens, a.plan);
    PlanIsWellFormed(lines, b.wanted, b.parse, b.render, b.opens, b.plan);
    PlanIsWellFormed(lines, c.wanted, c.parse, c.render, c.opens, c.plan);
    PlansAreDisjoint(a, b, lines, classify);
    PlansAreDisjoint(a, c, lines, classify);
    PlansAreDisjoint(b, c, lines, classify);
    JoinedIsWellFormed(a.plan, b.plan);
    JoinedIsWellFormed(a.plan.Extend(b.plan), c.plan);
  }

  /** Three flavours with entries of three types. */
  lemma {:induction false} ThreeFlavours<A, B, C>(lines: seq<Line>, classify: Classifier, a: Flavour<A>, b: Flavour<B>,
                                                  c: Flavour<C>)
    requires WellFormed(lines, classify)
    requires Ready(a, lines, classify) && Ready(b, lines, classify) && Ready(c, lines, classify)
    requires Apart(a, b, lines) && Apart(a, c, lines) && Apart(b, c, lines)
    ensures var whole := a.plan.Extend(b.plan).Extend(c.plan);
      && WellFormedPlan(whole)
      && Satisfies(a, lines, classify, whole) && Satisfies(b, lines, classify, whole) && Satisfies(c, lines, classify, whole)
  {
    ThreeAreWellFormed(lines, classify, a, b, c);
    FirstOfThree(lines, classify, a, b, c);
    PlanIsForeign(b, a, lines, classify);
    PlanIsForeign(b, c, lines, classify);
    SatisfiedBeside(b, a.plan, c.plan, lines, classify);
    LastOfThree(lines, classify, a, b, c);
  }

  lemma {:induction false} FirstOfThree<A, B, C>(lines: seq<Line>, classify: Classifier, a: Flavour<A>, b: Flavour<B>,
                                                 c: Flavour<C>)
    requires WellFormed(lines, classify)
    requires Ready(a, lines, classify) && Ready(b, lines, classify) && Ready(c, lines, classify)
    requires Apart(a, b, lines) && Apart(a, c, lines) && WellFormedPlan(a.plan.Extend(b.plan).Extend(c.plan))
    ensures Satisfies(a, lines, classify, a.plan.Extend(b.plan).Extend(c.plan))
  {
    var others := b.plan.Extend(c.plan);
    PlanIsForeign(a, b, lines, classify);
    PlanIsForeign(a, c, lines, classify);
    ForeignTogether(b.plan, c.plan, lines, classify, a.parse);
    EmptyIsForeign(lines, classify, a.parse);
    ExtendEmpty(a.plan, others);
    ExtendThrice(a.plan, b.plan, c.plan);
    SatisfiedBeside(a, EmptyPlan, others, lines, classify);
  }

  lemma {:induction false} LastOfThree<A, B, C>(lines: seq<Line>, classify: Classifier, a: Flavour<A>, b: Flavour<B>,
                                                c: Flavour<C>)
    requires WellFormed(lines, classify)
    requires Ready(a, lines, classify) && Ready(b, lines, classify) && Ready(c, lines, classify)
    requires Apart(a, c, lines) && Apart(b, c, lines) && WellFormedPlan(a.plan.Extend(b.plan).Extend(c.plan))
    ensures Satisfies(c, lines, classify, a.plan.Extend(b.plan).Extend(c.plan))
  {
    var others := a.plan.Extend(b.plan);
    PlanIsForeign(c, a, lines, classify);
    PlanIsForeign(c, b, lines, classify);
    ForeignTogether(a.plan, b.plan, lines, classify, c.parse);
    EmptyIsForeign(lines, classify, c.parse);
    ExtendEmpty(others, c.plan);
    SatisfiedBeside(c, others, EmptyPlan, lines, classify);
  }
}
