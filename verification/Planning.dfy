/**
 From a document's entries and a list of wanted ones to a plan.

 An edit script says which entries stay. What changes between two that stay is settled run by run and recorded
 as a sequence of decisions, of which the plan is a projection; new lines are then placed so that the order of
 the wanted entries is the order of the rows.
 */
module Planning {
  import opened Wrappers
  import opened Bytes
  import opened Lines
  import opened Edits
  import opened Entries
  import EditDistance
  import Align

  /**
   How far planning has come: `ops` is what was decided for the entry rows `rows`, it makes the entries
   `made`, and the plan and the slots say the same.
   */
  ghost predicate State<T>(plan: EntryPlan, slots: seq<Slot>, ops: seq<Op>, rows: seq<nat>, made: seq<T>,
                           lines: seq<Line>, parse: Parser<T>, render: Renderer<T>)
  {
    && plan.replace == OpReplace(ops) && plan.remove == OpRemove(ops) && plan.insert == [] && slots == OpSlots(ops)
    && OpRows(ops) == rows && Makes(ops, made, lines, parse, render)
  }

  lemma {:induction false} StateAdd<T>(plan: EntryPlan, slots: seq<Slot>, ops: seq<Op>, rows: seq<nat>, made: seq<T>,
                                       lines: seq<Line>, parse: Parser<T>, render: Renderer<T>, raw: Text, w: T)
    requires State(plan, slots, ops, rows, made, lines, parse, render) && Writes(render, w, raw)
    ensures State(plan, slots + [NewText(raw)], ops + [Add(raw)], rows, made + [w], lines, parse, render)
    ensures CountKeeps(ops + [Add(raw)]) == CountKeeps(ops)
  {
    OpPush(ops, Add(raw));
  }

  lemma {:induction false} StateRewrite<T>(plan: EntryPlan, slots: seq<Slot>, ops: seq<Op>, rows: seq<nat>, made: seq<T>,
                                           lines: seq<Line>, parse: Parser<T>, render: Renderer<T>, row: nat, raw: Text, w: T)
    requires State(plan, slots, ops, rows, made, lines, parse, render) && Writes(render, w, raw)
    ensures State(plan.(replace := plan.replace + [(row, raw)]), slots + [OnLine(row)], ops + [Rewrite(row, raw)],
                  rows + [row], made + [w], lines, parse, render)
    ensures CountKeeps(ops + [Rewrite(row, raw)]) == CountKeeps(ops)
  {
    OpPush(ops, Rewrite(row, raw));
  }

  /** `e` is the reason `w` cannot be written. */
  ghost predicate CannotWrite<T>(render: Renderer<T>, w: T, e: EditError) {
    match render(w)
    case Err(why) => e == why
    case Ok(raw) => !FitsOnLine(raw) && e == LineBreakInValue(raw)
  }

  /** One of the entries cannot be written, and `e` says why. */
  ghost predicate SomeUnwritable<T>(render: Renderer<T>, entries: seq<T>, e: EditError) {
    exists w :: w in entries && CannotWrite(render, w, e)
  }

  /** The rows that hold entries, and the entries. */
  method CollectEntries<T>(lines: seq<Line>, parse: Parser<T>) returns (rows: seq<nat>, have: seq<T>)
    ensures rows == EntryRows(lines, parse) && have == EntriesOf(lines, parse)
  {
    rows, have := [], [];
    for row := 0 to |lines|
      invariant rows == EntryRows(lines[..row], parse) && have == EntriesOf(lines[..row], parse)
    {
      assert lines[..row + 1][..row] == lines[..row];
      var line := lines[row];
      if line.kind.Directive? {
        var entry := parse(line.raw);
        if entry.Some? {
          rows, have := rows + [row], have + [entry.value];
        }
      }
    }
    assert lines[..|lines|] == lines;
  }

  lemma AppendOneMore<A>(a: seq<A>, s: seq<A>, i: nat)
    requires i < |s|
    ensures a + s[..i + 1] == a + s[..i] + [s[i]]
  {
  }

  /** A removal may be decided next. */
  ghost predicate MayDrop(ops: seq<Op>) {
    ops == [] || !ops[|ops| - 1].Add?
  }

  /** A run of changes starts here: at the beginning, or behind a kept entry. */
  ghost predicate RunStarts(ops: seq<Op>) {
    Paired(ops) && (ops == [] || ops[|ops| - 1].Keep?)
  }

  /** Nothing but rewrites was decided since the run started. */
  ghost predicate OnlyRewrites(ops: seq<Op>) {
    ops == [] || ops[|ops| - 1].Keep? || ops[|ops| - 1].Rewrite?
  }

  /** Removes the deleted lines that no new entry was paired with. */
  method RemoveRest<T>(deleted: seq<nat>, gone: nat, plan: EntryPlan, ghost slots: seq<Slot>, ghost ops: seq<Op>,
                       ghost rows: seq<nat>, ghost made: seq<T>, ghost lines: seq<Line>, ghost parse: Parser<T>,
                       ghost render: Renderer<T>)
    returns (p: EntryPlan, ghost after: seq<Op>)
    requires gone <= |deleted| && State(plan, slots, ops, rows + deleted[..gone], made, lines, parse, render)
    requires Paired(ops) && (gone < |deleted| ==> MayDrop(ops))
    ensures State(p, slots, after, rows + deleted, made, lines, parse, render) && CountKeeps(after) == CountKeeps(ops)
    ensures Paired(after)
  {
    p, after := plan, ops;
    for i := gone to |deleted|
      invariant State(p, slots, after, rows + deleted[..i], made, lines, parse, render)
      invariant CountKeeps(after) == CountKeeps(ops)
      invariant Paired(after) && (i < |deleted| ==> MayDrop(after))
    {
      PairedPush(after, Drop(deleted[i]));
      AppendOneMore(rows, deleted, i);
      p, after := p.(remove := p.remove + [deleted[i]]), after + [Drop(deleted[i])];
    }
    assert deleted[..|deleted|] == deleted;
  }

  /** The text of an entry, if it stays on its line. */
  method RenderChecked<T>(render: Renderer<T>, w: T) returns (r: Result<Text, EditError>)
    ensures r.Ok? ==> Writes(render, w, r.value)
    ensures r.Err? ==> CannotWrite(render, w, r.error)
  {
    r := render(w);
    if r.Ok? && !FitsOnLine(r.value) {
      r := Err(LineBreakInValue(r.value));
    }
  }

  /** Decides the changes of one run: each wanted entry takes the next deleted row while there is one. */
  method SettleRun<T>(deleted: seq<nat>, inserted: seq<T>, render: Renderer<T>, plan: EntryPlan, slots: seq<Slot>,
                      ghost ops: seq<Op>, ghost rows: seq<nat>, ghost made: seq<T>, ghost lines: seq<Line>,
                      ghost parse: Parser<T>)
    returns (r: Result<(EntryPlan, seq<Slot>), EditError>, ghost after: seq<Op>)
    requires State(plan, slots, ops, rows, made, lines, parse, render) && RunStarts(ops)
    ensures r.Ok? ==> State(r.value.0, r.value.1, after, rows + deleted, made + inserted, lines, parse, render)
    ensures r.Ok? ==> CountKeeps(after) == CountKeeps(ops) && Paired(after)
    ensures r.Err? ==> SomeUnwritable(render, inserted, r.error)
  {
    after := ops;
    var p, s, gone := plan, slots, 0;
    assert rows + deleted[..0] == rows && made + inserted[..0] == made;
    for i := 0 to |inserted|
      invariant gone == if i <= |deleted| then i else |deleted|
      invariant State(p, s, after, rows + deleted[..gone], made + inserted[..i], lines, parse, render)
      invariant CountKeeps(after) == CountKeeps(ops)
      invariant Paired(after) && (i <= |deleted| ==> OnlyRewrites(after)) && MayPush(after, Add([]))
    {
      var rendered := RenderChecked(render, inserted[i]);
      if rendered.Err? {
        return Err(rendered.error), after;
      }
      var raw := rendered.value;
      AppendOneMore(made, inserted, i);
      if gone < |deleted| {
        var row := deleted[gone];
        PairedPush(after, Rewrite(row, raw));
        StateRewrite(p, s, after, rows + deleted[..gone], made + inserted[..i], lines, parse, render, row, raw, inserted[i]);
        AppendOneMore(rows, deleted, gone);
        p, s, after := p.(replace := p.replace + [(row, raw)]), s + [OnLine(row)], after + [Rewrite(row, raw)];
        gone := gone + 1;
      } else {
        PairedPush(after, Add(raw));
        StateAdd(p, s, after, rows + deleted[..gone], made + inserted[..i], lines, parse, render, raw, inserted[i]);
        s, after := s + [NewText(raw)], after + [Add(raw)];
      }
    }
    assert inserted[..|inserted|] == inserted;
    p, after := RemoveRest(deleted, gone, p, s, after, rows, made + inserted, lines, parse, render);
    r := Ok((p, s));
  }

  /** Settles the run before an unchanged entry, then keeps the entry's line. */
  method SettleAndKeep<T>(deleted: seq<nat>, inserted: seq<T>, row: nat, render: Renderer<T>, plan: EntryPlan,
                          slots: seq<Slot>, ghost w: T, ghost ops: seq<Op>, ghost rows: seq<nat>, ghost made: seq<T>,
                          ghost lines: seq<Line>, ghost parse: Parser<T>)
    returns (r: Result<(EntryPlan, seq<Slot>), EditError>, ghost after: seq<Op>)
    requires State(plan, slots, ops, rows, made, lines, parse, render) && RunStarts(ops)
    requires row < |lines| && EntryOf(lines[row], parse) == [w]
    ensures r.Ok? ==> State(r.value.0, r.value.1, after, rows + deleted + [row], made + inserted + [w], lines, parse, render)
    ensures r.Ok? ==> CountKeeps(after) == CountKeeps(ops) + 1 && RunStarts(after)
    ensures r.Err? ==> SomeUnwritable(render, inserted, r.error)
  {
    r, after := SettleRun(deleted, inserted, render, plan, slots, ops, rows, made, lines, parse);
    if r.Ok? {
      PairedPush(after, Keep(row));
      r, after := Ok((r.value.0, r.value.1 + [OnLine(row)])), after + [Keep(row)];
    }
  }

  lemma {:induction false} EntryAt<T>(lines: seq<Line>, parse: Parser<T>, i: nat)
    requires i < |EntryRows(lines, parse)|
    ensures i < |EntriesOf(lines, parse)| && EntryRows(lines, parse)[i] < |lines|
    ensures EntryOf(lines[EntryRows(lines, parse)[i]], parse) == [EntriesOf(lines, parse)[i]]
  {
    EntryRowsMeaning(lines, parse);
  }

  /** How far a script was walked (`x`, `y`), and where the run of changes that is still open starts (`dx`, `iy`). */
  datatype Position = Position(x: nat, y: nat, dx: nat, iy: nat)

  /** The entries from `from` to `to` are inserted by the script. */
  ghost predicate AllInserted(steps: seq<EditDistance.Step>, from: nat, to: nat) {
    forall k :: from <= k < to ==> EditDistance.Insert(k) in steps
  }

  /** Before step `t`: the open run deletes `deleted` and inserts `inserted`, and `keeps` entries were kept. */
  ghost predicate Walked<T>(steps: seq<EditDistance.Step>, t: nat, have: seq<T>, wanted: seq<T>, rows: seq<nat>,
                            deleted: seq<nat>, inserted: seq<T>, keeps: int, p: Position)
  {
    && t <= |steps| && |rows| == |have|
    && EditDistance.ScriptFrom(have, wanted, steps[t..], p.x, p.y)
    && p.dx <= p.x <= |rows| && p.iy <= p.y <= |wanted|
    && deleted == rows[p.dx..p.x] && inserted == wanted[p.iy..p.y]
    && AllInserted(steps, p.iy, p.y)
    && keeps == p.x - EditDistance.CountDeletes(steps) + EditDistance.CountDeletes(steps[t..])
  }

  /** A kept entry closes the run before it. */
  lemma {:induction false} WalkEqual<T>(steps: seq<EditDistance.Step>, t: nat, have: seq<T>, wanted: seq<T>, rows: seq<nat>,
                                        deleted: seq<nat>, inserted: seq<T>, keeps: int, p: Position)
    requires Walked(steps, t, have, wanted, rows, deleted, inserted, keeps, p) && t < |steps| && steps[t].Equal?
    ensures steps[t].src == p.x < |rows| && p.y < |wanted| && have[p.x] == wanted[p.y]
    ensures rows[..p.dx] + deleted + [rows[p.x]] == rows[..p.x + 1]
    ensures wanted[..p.iy] + inserted + [wanted[p.y]] == wanted[..p.y + 1]
    ensures Walked(steps, t + 1, have, wanted, rows, [], [], keeps + 1, Position(p.x + 1, p.y + 1, p.x + 1, p.y + 1))
  {
  }

  lemma {:induction false} WalkEnds<T>(steps: seq<EditDistance.Step>, have: seq<T>, wanted: seq<T>, rows: seq<nat>,
                                       deleted: seq<nat>, inserted: seq<T>, keeps: int, p: Position)
    requires Walked(steps, |steps|, have, wanted, rows, deleted, inserted, keeps, p)
    ensures rows[..p.dx] + deleted == rows && wanted[..p.iy] + inserted == wanted
    ensures keeps == |rows| - EditDistance.CountDeletes(steps)
  {
    assert steps[|steps|..] == [];
  }

  /** An entry that the script inserts cannot be written, and `e` says why. */
  ghost predicate InsertUnwritable<T>(render: Renderer<T>, wanted: seq<T>, steps: seq<EditDistance.Step>, e: EditError) {
    exists k :: 0 <= k < |wanted| && EditDistance.Insert(k) in steps && CannotWrite(render, wanted[k], e)
  }

  /** Where planning stands before step `t`: what was walked, and what was decided for the closed runs. */
  ghost predicate Settling<T>(steps: seq<EditDistance.Step>, t: nat, rows: seq<nat>, wanted: seq<T>, deleted: seq<nat>,
                              inserted: seq<T>, plan: EntryPlan, slots: seq<Slot>, ops: seq<Op>, lines: seq<Line>,
                              parse: Parser<T>, render: Renderer<T>, p: Position)
  {
    && rows == EntryRows(lines, parse)
    && Walked(steps, t, EntriesOf(lines, parse), wanted, rows, deleted, inserted, CountKeeps(ops), p)
    && State(plan, slots, ops, rows[..p.dx], wanted[..p.iy], lines, parse, render) && RunStarts(ops)
  }

  /** Settles the run in front of a kept entry. */
  method CloseRun<T>(steps: seq<EditDistance.Step>, t: nat, rows: seq<nat>, wanted: seq<T>, deleted: seq<nat>, inserted: seq<T>,
                     plan: EntryPlan, slots: seq<Slot>, ghost ops: seq<Op>, render: Renderer<T>, ghost lines: seq<Line>,
                     ghost parse: Parser<T>, ghost p: Position)
    returns (r: Result<(EntryPlan, seq<Slot>), EditError>, ghost after: seq<Op>)
    requires Settling(steps, t, rows, wanted, deleted, inserted, plan, slots, ops, lines, parse, render, p)
    requires t < |steps| && steps[t].Equal?
    ensures r.Ok? ==> Settling(steps, t + 1, rows, wanted, [], [], r.value.0, r.value.1, after, lines, parse, render,
                               Position(p.x + 1, p.y + 1, p.x + 1, p.y + 1))
    ensures r.Err? ==> InsertUnwritable(render, wanted, steps, r.error)
  {
    KeptEntry(steps, t, rows, wanted, deleted, inserted, plan, slots, ops, lines, parse, render, p);
    r, after := SettleAndKeep(deleted, inserted, rows[steps[t].src], render, plan, slots, wanted[p.y], ops, rows[..p.dx],
                              wanted[..p.iy], lines, parse);
    if r.Ok? {
      SettlingAt(steps, t + 1, rows, wanted, r.value.0, r.value.1, after, lines, parse, render,
                 Position(p.x + 1, p.y + 1, p.x + 1, p.y + 1));
    } else {
      UnwritableIsInserted(steps, p.iy, p.y, wanted, inserted, render, r.error);
    }
  }

  lemma {:induction false} UnwritableIsInserted<T>(steps: seq<EditDistance.Step>, from: nat, to: nat, wanted: seq<T>,
                                                   inserted: seq<T>, render: Renderer<T>, e: EditError)
    requires from <= to <= |wanted| && inserted == wanted[from..to] && AllInserted(steps, from, to)
    requires SomeUnwritable(render, inserted, e)
    ensures InsertUnwritable(render, wanted, steps, e)
  {
    var w :| w in inserted && CannotWrite(render, w, e);
    var k :| 0 <= k < |inserted| && inserted[k] == w;
    assert wanted[from + k] == w && EditDistance.Insert(from + k) in steps;
  }

  /** An Equal step keeps a row that holds the wanted entry. */
  lemma {:induction false} KeptEntry<T>(steps: seq<EditDistance.Step>, t: nat, rows: seq<nat>, wanted: seq<T>,
                                        deleted: seq<nat>, inserted: seq<T>, plan: EntryPlan, slots: seq<Slot>,
                                        ops: seq<Op>, lines: seq<Line>, parse: Parser<T>, render: Renderer<T>, p: Position)
    requires Settling(steps, t, rows, wanted, deleted, inserted, plan, slots, ops, lines, parse, render, p)
    requires t < |steps| && steps[t].Equal?
    ensures steps[t].src < |rows| && p.y < |wanted| && rows[steps[t].src] < |lines|
    ensures EntryOf(lines[rows[steps[t].src]], parse) == [wanted[p.y]]
    ensures AllInserted(steps, p.iy, p.y) && p.iy <= p.y <= |wanted| && inserted == wanted[p.iy..p.y]
    ensures State(plan, slots, ops, rows[..p.dx], wanted[..p.iy], lines, parse, render) && RunStarts(ops)
    ensures rows == EntryRows(lines, parse) && p.x + 1 <= |rows|
    ensures rows[..p.dx] + deleted + [rows[steps[t].src]] == rows[..p.x + 1]
    ensures wanted[..p.iy] + inserted + [wanted[p.y]] == wanted[..p.y + 1]
    ensures Walked(steps, t + 1, EntriesOf(lines, parse), wanted, rows, [], [], CountKeeps(ops) + 1,
                   Position(p.x + 1, p.y + 1, p.x + 1, p.y + 1))
  {
    WalkEqual(steps, t, EntriesOf(lines, parse), wanted, rows, deleted, inserted, CountKeeps(ops), p);
    EntryAt(lines, parse, p.x);
  }

  /** Behind a kept entry no run is open. */
  lemma {:induction false} SettlingAt<T>(steps: seq<EditDistance.Step>, t: nat, rows: seq<nat>, wanted: seq<T>, plan: EntryPlan,
                                         slots: seq<Slot>, ops: seq<Op>, lines: seq<Line>, parse: Parser<T>,
                                         render: Renderer<T>, p: Position)
    requires rows == EntryRows(lines, parse) && p.dx <= |rows| && p.iy <= |wanted|
    requires Walked(steps, t, EntriesOf(lines, parse), wanted, rows, [], [], CountKeeps(ops), p)
    requires State(plan, slots, ops, rows[..p.dx], wanted[..p.iy], lines, parse, render) && RunStarts(ops)
    ensures Settling(steps, t, rows, wanted, [], [], plan, slots, ops, lines, parse, render, p)
  {
  }

  lemma {:induction false} NothingSettled<T>(steps: seq<EditDistance.Step>, rows: seq<nat>, wanted: seq<T>, lines: seq<Line>,
                                             parse: Parser<T>, render: Renderer<T>)
    requires rows == EntryRows(lines, parse) && EditDistance.IsScript(EntriesOf(lines, parse), wanted, steps)
    ensures Settling(steps, 0, rows, wanted, [], [], EmptyPlan, [], [], lines, parse, render, Position(0, 0, 0, 0))
  {
    EntryRowsMeaning(lines, parse);
    assert steps[0..] == steps;
  }

  lemma {:induction false} SettlingDelete<T>(steps: seq<EditDistance.Step>, t: nat, rows: seq<nat>, wanted: seq<T>,
                                             deleted: seq<nat>, inserted: seq<T>, plan: EntryPlan, slots: seq<Slot>,
                                             ops: seq<Op>, lines: seq<Line>, parse: Parser<T>, render: Renderer<T>, p: Position)
    requires Settling(steps, t, rows, wanted, deleted, inserted, plan, slots, ops, lines, parse, render, p)
    requires t < |steps| && steps[t].Delete?
    ensures steps[t].src < |rows|
    ensures Settling(steps, t + 1, rows, wanted, deleted + [rows[steps[t].src]], inserted, plan, slots, ops, lines, parse,
                     render, p.(x := p.x + 1))
  {
  }

  lemma {:induction false} SettlingInsert<T>(steps: seq<EditDistance.Step>, t: nat, rows: seq<nat>, wanted: seq<T>,
                                             deleted: seq<nat>, inserted: seq<T>, plan: EntryPlan, slots: seq<Slot>,
                                             ops: seq<Op>, lines: seq<Line>, parse: Parser<T>, render: Renderer<T>, p: Position)
    requires Settling(steps, t, rows, wanted, deleted, inserted, plan, slots, ops, lines, parse, render, p)
    requires t < |steps| && steps[t].Insert?
    ensures steps[t].dst < |wanted|
    ensures Settling(steps, t + 1, rows, wanted, deleted, inserted + [wanted[steps[t].dst]], plan, slots, ops, lines, parse,
                     render, p.(y := p.y + 1))
  {
  }

  /** Settles the run at the end of the script. */
  method CloseLast<T>(steps: seq<EditDistance.Step>, rows: seq<nat>, wanted: seq<T>, deleted: seq<nat>, inserted: seq<T>,
                      plan: EntryPlan, slots: seq<Slot>, ghost ops: seq<Op>, render: Renderer<T>, ghost lines: seq<Line>,
                      ghost parse: Parser<T>, ghost p: Position)
    returns (r: Result<(EntryPlan, seq<Slot>), EditError>, ghost after: seq<Op>)
    requires Settling(steps, |steps|, rows, wanted, deleted, inserted, plan, slots, ops, lines, parse, render, p)
    ensures r.Ok? ==> State(r.value.0, r.value.1, after, rows, wanted, lines, parse, render)
    ensures r.Ok? ==> CountKeeps(after) == |rows| - EditDistance.CountDeletes(steps) && Paired(after)
    ensures r.Err? ==> InsertUnwritable(render, wanted, steps, r.error)
  {
    WalkEnds(steps, EntriesOf(lines, parse), wanted, rows, deleted, inserted, CountKeeps(ops), p);
    r, after := SettleRun(deleted, inserted, render, plan, slots, ops, rows[..p.dx], wanted[..p.iy], lines, parse);
    if r.Err? {
      UnwritableIsInserted(steps, p.iy, p.y, wanted, inserted, render, r.error);
    }
  }

  /** Settles every run of the script, keeping the lines of equal entries. Only entries it inserts are written. */
  method SettleAll<T>(steps: seq<EditDistance.Step>, rows: seq<nat>, wanted: seq<T>, render: Renderer<T>,
                      ghost lines: seq<Line>, ghost parse: Parser<T>)
    returns (r: Result<(EntryPlan, seq<Slot>), EditError>, ghost ops: seq<Op>)
    requires rows == EntryRows(lines, parse)
    requires EditDistance.IsScript(EntriesOf(lines, parse), wanted, steps)
    ensures r.Ok? ==> State(r.value.0, r.value.1, ops, rows, wanted, lines, parse, render)
    ensures r.Ok? ==> CountKeeps(ops) == |rows| - EditDistance.CountDeletes(steps) && Paired(ops)
    ensures r.Err? ==> InsertUnwritable(render, wanted, steps, r.error)
  {
    var plan, slots := EmptyPlan, [];
    var deleted: seq<nat>, inserted: seq<T> := [], [];
    ops := [];
    ghost var p := Position(0, 0, 0, 0);
    NothingSettled(steps, rows, wanted, lines, parse, render);
    for t := 0 to |steps|
      invariant Settling(steps, t, rows, wanted, deleted, inserted, plan, slots, ops, lines, parse, render, p)
    {
      match steps[t]
      case Delete(at) =>
        SettlingDelete(steps, t, rows, wanted, deleted, inserted, plan, slots, ops, lines, parse, render, p);
        deleted, p := deleted + [rows[at]], p.(x := p.x + 1);
      case Insert(index) =>
        SettlingInsert(steps, t, rows, wanted, deleted, inserted, plan, slots, ops, lines, parse, render, p);
        inserted, p := inserted + [wanted[index]], p.(y := p.y + 1);
      case Equal(_, _) =>
        r, ops := CloseRun(steps, t, rows, wanted, deleted, inserted, plan, slots, ops, render, lines, parse, p);
        if r.Err? {
          return;
        }
        plan, slots := r.value.0, r.value.1;
        deleted, inserted, p := [], [], Position(p.x + 1, p.y + 1, p.x + 1, p.y + 1);
    }
    r, ops := CloseLast(steps, rows, wanted, deleted, inserted, plan, slots, ops, render, lines, parse, p);
  }

  // ----- where new lines go -----

  /** The nearest section header, looking from `from` and giving up at `limit`. */
  function FirstOpener(lines: seq<Line>, from: nat, limit: nat, opens: Text -> bool): nat
    decreases limit - from
  {
    if from >= limit || from >= |lines| then limit
    else if opens(lines[from].raw) then from
    else FirstOpener(lines, from + 1, limit, opens)
  }

  predicate LeadsIn(lines: seq<Line>, row: nat) {
    row < |lines| && (lines[row].kind.Blank? || lines[row].kind.Comment?)
  }

  /** Moves back from `end` over blank and comment lines, not before `from`. */
  function BackOver(lines: seq<Line>, from: nat, end: nat): nat {
    if end > from && LeadsIn(lines, end - 1) then BackOver(lines, from, end - 1) else end
  }

  function SectionEnd(lines: seq<Line>, from: nat, limit: nat, opens: Text -> bool): nat {
    BackOver(lines, from, FirstOpener(lines, from, limit, opens))
  }

  lemma {:induction false} FirstOpenerMeaning(lines: seq<Line>, from: nat, limit: nat, opens: Text -> bool)
    requires from <= limit
    ensures var e := FirstOpener(lines, from, limit, opens);
      && from <= e <= limit
      && (e < limit ==> e < |lines| && opens(lines[e].raw))
      && forall row :: from <= row < e && row < |lines| ==> !opens(lines[row].raw)
    decreases limit - from
  {
    if from < limit && from < |lines| && !opens(lines[from].raw) {
      FirstOpenerMeaning(lines, from + 1, limit, opens);
    }
  }

  lemma {:induction false} BackOverMeaning(lines: seq<Line>, from: nat, end: nat)
    requires from <= end
    ensures var r := BackOver(lines, from, end);
      && from <= r <= end
      && (forall row :: r <= row < end ==> LeadsIn(lines, row))
      && (r > from ==> !LeadsIn(lines, r - 1))
  {
    if end > from && LeadsIn(lines, end - 1) {
      BackOverMeaning(lines, from, end - 1);
    }
  }

  /**
   The place for a new section: no header lies between `from` and it, only blank lines and comments between it
   and the next header, and it is the first such place.
   */
  lemma {:induction false} SectionEndMeaning(lines: seq<Line>, from: nat, limit: nat, opens: Text -> bool)
    requires from <= limit
    ensures var r, e := SectionEnd(lines, from, limit, opens), FirstOpener(lines, from, limit, opens);
      && from <= r <= e <= limit
      && (e < limit ==> e < |lines| && opens(lines[e].raw))
      && (forall row :: from <= row < e && row < |lines| ==> !opens(lines[row].raw))
      && (forall row :: r <= row < e ==> LeadsIn(lines, row))
      && (r > from ==> !LeadsIn(lines, r - 1))
  {
    FirstOpenerMeaning(lines, from, limit, opens);
    BackOverMeaning(lines, from, FirstOpener(lines, from, limit, opens));
  }

  /** The row of the first slot from `j` on that has one. */
  function NextRow(slots: seq<Slot>, j: nat): Option<nat>
    decreases |slots| - j
  {
    if j >= |slots| then None else if slots[j].OnLine? then Some(slots[j].row) else NextRow(slots, j + 1)
  }

  function Limit(lines: seq<Line>, slots: seq<Slot>, j: nat): nat {
    match NextRow(slots, j + 1) case Some(row) => row case None => |lines|
  }

  /** The position just behind the first `j` slots; none when there is no slot yet. */
  function BehindSlots(lines: seq<Line>, slots: seq<Slot>, opens: Text -> bool, j: nat): Option<nat>
    requires j <= |slots|
    decreases j, 0
  {
    if j == 0 then None
    else if slots[j - 1].OnLine? then Some(slots[j - 1].row + 1)
    else Some(Target(lines, slots, opens, j - 1))
  }

  /**
   The row that new line `j` is inserted before. It follows the entry it comes after, or that entry's section if
   the line is a header itself; a line that comes first goes to the row of the next entry.
   */
  function Target(lines: seq<Line>, slots: seq<Slot>, opens: Text -> bool, j: nat): nat
    requires j < |slots| && slots[j].NewText?
    decreases j, 1
  {
    match BehindSlots(lines, slots, opens, j)
    case None => Limit(lines, slots, j)
    case Some(from) => if opens(slots[j].raw) then SectionEnd(lines, from, Limit(lines, slots, j), opens) else from
  }

  /**
   The order of the slots in the edited document: a kept or rewritten row has the key 2 * row + 1, a new
   line inserted before row `at` the key 2 * at.
   */
  function Key(lines: seq<Line>, slots: seq<Slot>, opens: Text -> bool, j: nat): nat
    requires j < |slots|
  {
    if slots[j].OnLine? then 2 * slots[j].row + 1 else 2 * Target(lines, slots, opens, j)
  }

  /** The inserts for the first `j` slots. */
  function InsertsFor(lines: seq<Line>, slots: seq<Slot>, opens: Text -> bool, j: nat): seq<(nat, Text)>
    requires j <= |slots|
  {
    if j == 0 then []
    else if slots[j - 1].OnLine? then InsertsFor(lines, slots, opens, j - 1)
    else InsertsFor(lines, slots, opens, j - 1) + [(Target(lines, slots, opens, j - 1), slots[j - 1].raw)]
  }

  /** `NextRow` behind every slot, found in one pass from the back. */
  method NextRows(slots: seq<Slot>) returns (next: seq<Option<nat>>)
    ensures |next| == |slots| && forall j :: 0 <= j < |slots| ==> next[j] == NextRow(slots, j + 1)
  {
    next := [];
    var nextRow := None;
    for j := |slots| downto 0
      invariant |next| == |slots| - j && nextRow == NextRow(slots, j)
      invariant forall i :: 0 <= i < |next| ==> next[i] == NextRow(slots, |slots| - i)
    {
      next := next + [nextRow];
      if slots[j].OnLine? {
        nextRow := Some(slots[j].row);
      }
    }
    next := seq(|slots|, i requires 0 <= i < |slots| == |next| => next[|slots| - 1 - i]);
  }

  /** Where the section containing row `from - 1` ends, for any `from` and `limit`. */
  method FindSectionEnd(lines: seq<Line>, from: nat, limit: nat, opens: Text -> bool) returns (end: nat)
    ensures end == SectionEnd(lines, from, limit, opens)
  {
    end := from;
    while end < limit && end < |lines| && !opens(lines[end].raw)
      invariant from <= end
      invariant FirstOpener(lines, end, limit, opens) == FirstOpener(lines, from, limit, opens)
    {
      end := end + 1;
    }
    if end >= limit || end >= |lines| {
      end := limit;
    }
    while end > from && LeadsIn(lines, end - 1)
      invariant BackOver(lines, from, end) == SectionEnd(lines, from, limit, opens)
    {
      end := end - 1;
    }
  }

  /** The positions of the new lines, in slot order. */
  method PlaceNew(lines: seq<Line>, slots: seq<Slot>, opens: Text -> bool) returns (insert: seq<(nat, Text)>)
    ensures insert == InsertsFor(lines, slots, opens, |slots|)
  {
    var next := NextRows(slots);
    insert := [];
    var at: Option<nat> := None;
    for j := 0 to |slots|
      invariant insert == InsertsFor(lines, slots, opens, j) && at == BehindSlots(lines, slots, opens, j)
    {
      match slots[j]
      case OnLine(row) =>
        at := Some(row + 1);
      case NewText(raw) =>
        var here := if next[j].Some? then next[j].value else |lines|;
        if at.Some? {
          if opens(raw) {
            here := FindSectionEnd(lines, at.value, here, opens);
          } else {
            here := at.value;
          }
        }
        insert, at := insert + [(here, raw)], Some(here);
    }
  }

  // ----- the whole plan -----

  /** `plan` is what planning decides for `wanted`, with the decisions `ops`. */
  ghost predicate PlannedBy<T>(lines: seq<Line>, wanted: seq<T>, parse: Parser<T>, render: Renderer<T>,
                               opens: Text -> bool, plan: EntryPlan, ops: seq<Op>)
  {
    && State(plan.(insert := []), OpSlots(ops), ops, EntryRows(lines, parse), wanted, lines, parse, render)
    && |OpSlots(ops)| == |wanted| && Paired(ops)
    && plan.insert == InsertsFor(lines, OpSlots(ops), opens, |wanted|)
  }

  ghost predicate Planned<T>(lines: seq<Line>, wanted: seq<T>, parse: Parser<T>, render: Renderer<T>,
                             opens: Text -> bool, plan: EntryPlan)
  {
    exists ops :: PlannedBy(lines, wanted, parse, render, opens, plan, ops)
  }

  lemma {:induction false} InsertCount(lines: seq<Line>, slots: seq<Slot>, opens: Text -> bool, j: nat)
    requires j <= |slots|
    ensures |InsertsFor(lines, slots, opens, j)| == CountNew(slots[..j])
  {
    if j > 0 {
      InsertCount(lines, slots, opens, j - 1);
      CountNewPush(slots[..j - 1], slots[j - 1]);
      assert slots[..j] == slots[..j - 1] + [slots[j - 1]];
    }
  }

  /** A script, and within the distance cap one that keeps a longest common subsequence. */
  ghost predicate Chosen<T>(have: seq<T>, wanted: seq<T>, steps: seq<EditDistance.Step>) {
    && EditDistance.IsScript(have, wanted, steps)
    && (EditDistance.Dist(have, wanted, |have|, |wanted|) <= Align.MAX_EDIT_DISTANCE ==>
          && EditDistance.CountDeletes(steps) == |have| - EditDistance.Lcs(have, wanted)
          && EditDistance.CountInserts(steps) == |wanted| - EditDistance.Lcs(have, wanted))
  }

  /** The shortest script, or the wholesale one when the entries are too far apart. */
  method AlignEntries<T(==)>(have: seq<T>, wanted: seq<T>) returns (steps: seq<EditDistance.Step>)
    ensures Chosen(have, wanted, steps)
  {
    var aligned := Align.Align(have, wanted);
    if aligned.Some? {
      steps := aligned.value;
      EditDistance.CheapestKeepsLcs(have, wanted, steps);
    } else {
      steps := Align.ReplaceAll(have, wanted, |have|, |wanted|);
    }
  }

  /** `e` is about a wanted entry that the chosen script inserts and that cannot be written. */
  ghost predicate Refused<T>(have: seq<T>, wanted: seq<T>, render: Renderer<T>, e: EditError) {
    exists steps :: Chosen(have, wanted, steps) && InsertUnwritable(render, wanted, steps, e)
  }

  lemma {:induction false} NoInserts(steps: seq<EditDistance.Step>, k: nat)
    requires EditDistance.CountInserts(steps) == 0
    ensures EditDistance.Insert(k) !in steps
  {
    if steps != [] {
      NoInserts(steps[1..], k);
      assert steps == [steps[0]] + steps[1..];
    }
  }

  lemma {:induction false} DistToItself<T>(s: seq<T>, i: nat)
    requires i <= |s|
    ensures EditDistance.Dist(s, s, i, i) == 0 && EditDistance.LcsUpTo(s, s, i, i) == i
  {
    if i > 0 {
      DistToItself(s, i - 1);
    }
  }

  /** What planning may answer: a plan that touches no more than it must, or the reason the script was refused. */
  ghost predicate Answers<T>(have: seq<T>, wanted: seq<T>, render: Renderer<T>, r: Result<EntryPlan, EditError>) {
    match r
    case Ok(plan) => Minimal(have, wanted, plan)
    case Err(e) => Refused(have, wanted, render, e)
  }

  /** The present entries are never refused: all of them are kept, so none is written, and their plan is empty. */
  lemma {:induction false} OwnEntriesPlanNothing<T>(have: seq<T>, render: Renderer<T>, r: Result<EntryPlan, EditError>)
    requires Answers(have, have, render, r)
    ensures r == Ok(EmptyPlan)
  {
    DistToItself(have, |have|);
    if r.Err? {
      var steps :| Chosen(have, have, steps) && InsertUnwritable(render, have, steps, r.error);
      var k :| 0 <= k < |have| && EditDistance.Insert(k) in steps && CannotWrite(render, have[k], r.error);
      NoInserts(steps, k);
    }
  }

  lemma {:induction false} PlanCounts<T>(lines: seq<Line>, wanted: seq<T>, parse: Parser<T>, render: Renderer<T>,
                                         opens: Text -> bool, plan: EntryPlan, ops: seq<Op>)
    requires PlannedBy(lines, wanted, parse, render, opens, plan, ops)
    ensures |plan.replace| + |plan.remove| == |EntriesOf(lines, parse)| - CountKeeps(ops)
    ensures |plan.replace| + |plan.insert| == |wanted| - CountKeeps(ops)
  {
    var slots := OpSlots(ops);
    EntryRowsMeaning(lines, parse);
    OpCounts(ops, wanted, lines, parse, render);
    InsertCount(lines, slots, opens, |slots|);
    assert slots[..|slots|] == slots;
  }

  /** A plan for `wanted`, or the reason there is none. */
  method PlanEntries<T(==)>(lines: seq<Line>, wanted: seq<T>, parse: Parser<T>, render: Renderer<T>, opens: Text -> bool)
    returns (r: Result<EntryPlan, EditError>)
    ensures r.Ok? ==> Planned(lines, wanted, parse, render, opens, r.value)
    ensures Answers(EntriesOf(lines, parse), wanted, render, r)
    ensures wanted == EntriesOf(lines, parse) ==> r == Ok(EmptyPlan)
  {
    r := PlanAligned(lines, wanted, parse, render, opens);
    if wanted == EntriesOf(lines, parse) {
      OwnEntriesPlanNothing(wanted, render, r);
    }
  }

  /** Collect, align, settle, place. */
  method PlanAligned<T(==)>(lines: seq<Line>, wanted: seq<T>, parse: Parser<T>, render: Renderer<T>, opens: Text -> bool)
    returns (r: Result<EntryPlan, EditError>)
    ensures r.Ok? ==> Planned(lines, wanted, parse, render, opens, r.value)
    ensures Answers(EntriesOf(lines, parse), wanted, render, r)
  {
    var rows, have := CollectEntries(lines, parse);
    assert |rows| == |have| by {
      EntryRowsMeaning(lines, parse);
    }
    var steps := AlignEntries(have, wanted);
    var settled;
    ghost var ops;
    settled, ops := SettleAll(steps, rows, wanted, render, lines, parse);
    if settled.Err? {
      return Err(settled.error);
    }
    var plan, slots := settled.value.0, settled.value.1;
    assert |slots| == |wanted| by {
      OpCounts(ops, wanted, lines, parse, render);
    }
    var insert := PlaceNew(lines, slots, opens);
    r := Ok(plan.(insert := insert));
    assert r.value.(insert := []) == plan;
    assert PlannedBy(lines, wanted, parse, render, opens, r.value, ops);
    PlanCounts(lines, wanted, parse, render, opens, r.value, ops);
  }

  /** Within the distance cap a plan touches only what is not in a longest common subsequence. */
  ghost predicate Minimal<T>(have: seq<T>, wanted: seq<T>, plan: EntryPlan) {
    EditDistance.Dist(have, wanted, |have|, |wanted|) <= Align.MAX_EDIT_DISTANCE ==>
      && |plan.replace| + |plan.remove| == |have| - EditDistance.Lcs(have, wanted)
      && |plan.replace| + |plan.insert| == |wanted| - EditDistance.Lcs(have, wanted)
  }
}
