# Detent in Dafny

Detent edits the configuration files of services without disturbing what it did not change, and keeps their
certificates current over ACME. This project models the parts of it where a mistake would be silent, and proves
what its documentation promises about them:

- **The lossless editor** (`crates/detent-core`). `align` is a bounded greedy diff: `Align` proves that its script is
  the shortest there is, and that it gives up exactly when every script is longer than 512 steps. `Document` is a
  sequence of lines changed in place; every run of edits keeps it equal to what re-parsing its own text gives, exactly
  for the classifiers that ignore a trailing carriage return. `plan_entries`, `apply_plan` and `normalize` together
  make the entries equal the wanted ones, touch no more entries than a longest common subsequence requires, put every
  new line behind its predecessor or at the end of its section, leave the other lines as they were, and do nothing when
  nothing is asked. These are invariants 1 to 5 of
  `crates/detent-core/src/conformance.rs`, here for every document and every wanted list.
- **The dns-01 order** (`crates/detent-acme`). A run of `issue` is a trace of calls whose outcomes are all free. Every
  published record is withdrawn on every exit, the CA is told to validate only behind a passed propagation check, and
  the store ends as it began, less what the run published, and so do real challenge files and record sets. The hook-file
  and deSEC providers refine one abstract set of values per name (section 8.4 of RFC 8555). The propagation check says yes exactly when a chain of at most four
  redirects ends at a name all of whose servers hold the value.
- **TSIG and UPDATE messages**, byte by byte. The verifier accepts exactly the answers its documentation describes,
  compressed names included, and it accepts what the signer produces (section 4.3 of RFC 8945). From the record to the
  signed bytes, an UPDATE means exactly "add this value at this name" or "remove this value at this name" to a primary
  server of the zone that follows section 3.4 of RFC 2136, and nothing to any other name.
- **Two small cores.** `due_at` is the first instant the renewal predicate is true, with the exact condition under
  which 64-bit saturation breaks that; version comparison is a total preorder on zero-padded components.

Code that changes things in place is modelled by methods with loops, and by the classes `Document.Document`,
`HookProvider.Provider` and `DeSecProvider.Provider`; each is proved against a specification function, and the lemmas
are about those functions. Text and wire data are byte sequences, integers are unbounded except where 64, 48 or 16 bits
matter, and everything outside the code (the file system, HTTP and DNS answers, clocks, HMAC) is a parameter.

Some findings differ from what the source says about itself.

- `due_at` is documented as the instant `should_renew_in_window` starts answering true. For a lifetime so long that 66 %
  of it overflows 64 bits the predicate is never true: `Schedule.LongestLifetimeIsNotDue` is an instance and
  `Schedule.DueAtIff` the exact condition.
- `normalize` is documented to restore the canonical form. It does so only for classifiers that ignore a trailing
  carriage return, because it does not recompute `kind`: `Edits.AppendAfterCr` is the failing edit and
  `Edits.RunsCanonicalIff` the exact condition.

- `read_name` is documented not to loop because pointers must point backwards. Labels move forward again:
  `Wire.BackwardPointersLoop` is a name it reads for ever, and `Names.EndlessIff` the exact condition.
- Two values should coexist at one name in every provider. A deSEC entry can be taken for another value
  (`DeSecProvider.QuotesClash`, `DeSecProvider.PlainIff`), and a challenge file loses a CR at the end of a value when a
  line is written behind it (`HookProvider.CrIsSwallowed`, `HookProvider.PresentIff`).

`dafny verify dfyconfig.toml` checks the whole project.

## Model

| member | source | states |
|---|---|---|
| `EditDistance.ScriptMeaning` | crates/detent-core/src/align.rs:63-73 | Any script names every old index once in order as Equal or Delete and every new index once in order as Equal or Insert, and replaying it on the old items gives the new ones |
| `EditDistance.Lipschitz` | crates/detent-core/src/align.rs:83-103 | Neighbouring points of the edit grid, also outside the sequences, differ in distance by at most one |
| `EditDistance.DiagonalMonotone` | crates/detent-core/src/align.rs:83-103 | Distance never shrinks along a diagonal, so "furthest point within d edits" is well defined |
| `EditDistance.Outside` | crates/detent-core/src/align.rs:98-100 | A frontier point past the far corner costs the corner plus the overshoot |
| `EditDistance.ScriptCostsAtLeast` | crates/detent-core/src/align.rs:63-73 | No script is cheaper than the distance |
| `EditDistance.LcsIsUpperBound` | crates/detent-core/src/doc.rs:490-506 | The recursive LCS length bounds every common subsequence |
| `EditDistance.LcsIsAttained` | crates/detent-core/src/doc.rs:490-506 | Some common subsequence has that length |
| `EditDistance.DistByLcs` | crates/detent-core/src/doc.rs:490-506 | Distance plus twice the LCS is the sum of the lengths |
| `EditDistance.CheapestKeepsLcs` | crates/detent-core/src/doc.rs:490-506 | A cheapest script deletes and inserts exactly what lies outside a longest common subsequence |
| `Align.EntryIsGreedy` | crates/detent-core/src/align.rs:58-97 | Greedy choice: on a diagonal that d edits can end on, no point past the entry point is reached within d edits except over matches |
| `Align.PassMissedCorner` | crates/detent-core/src/align.rs:83-104 | A round that returns nothing proves the distance larger than the round number |
| `Align.FirstHitIsCorner` | crates/detent-core/src/align.rs:98-100 | The first hit is the far corner itself, not a point past it |
| `Align.Slide` | crates/detent-core/src/align.rs:93-96 | The inner loop stops at the last match of the diagonal |
| `Align.Advance` | crates/detent-core/src/align.rs:88-97 | One cell update gives the furthest point of its diagonal within the edit distance |
| `Align.Pass` | crates/detent-core/src/align.rs:85-103 | One round over the frontier array: a hit means the distance is exactly the round number, no hit that it is larger and the frontier is settled |
| `Align.Align` | crates/detent-core/src/align.rs:74-107 | The script is valid and has the fewest Delete and Insert steps of all scripts; None exactly when every script has more than 512 |
| `Align.StepBack` | crates/detent-core/src/align.rs:122-132 | The snapshot cell a furthest point came from is a furthest point one edit earlier, with only matches between |
| `Align.Origin` | crates/detent-core/src/align.rs:121-132 | Which point the walk came from, down to the start at distance 0 |
| `Align.Unwind` | crates/detent-core/src/align.rs:119-147 | One snapshot back: the script grows at its front by matches and one edit |
| `Align.Backtrack` | crates/detent-core/src/align.rs:111-151 | The script rebuilt from the snapshots is valid and costs exactly the number of rounds |
| `Align.ReplaceAll` | crates/detent-core/src/align.rs:156-161 | The fallback script is valid and deletes and inserts everything |
| `Lines.Lossless` | crates/detent-core/src/conformance.rs:94-110 | Invariant 1: rendering a parsed text gives the text back |
| `Lines.ParseIsWellFormed` | crates/detent-core/src/doc.rs:259-279 | Parsing produces well-formed documents |
| `Lines.WellFormedReparses` | crates/detent-core/src/doc.rs:648-657 | A well-formed document equals what re-parsing its text gives, in text, kind, terminator and span |
| `Lines.CanonicalIffWellFormed` | crates/detent-core/src/doc.rs:648-657 | Canonical if and only if well formed |
| `Lines.NormalizeKeepsText` | crates/detent-core/src/doc.rs:648-677 | Normalising changes no rendered byte |
| `Lines.NormalizeIsWellFormed` | crates/detent-core/src/doc.rs:658-677 | Normalising what an edit leaves restores the canonical form, for classifiers that ignore a trailing CR |
| `Lines.NormalizeKeepsWellFormed` | crates/detent-core/src/doc.rs:658-677 | Normalising a canonical document changes nothing |
| `StableSort.SortByIsStable` | crates/detent-core/src/doc.rs:589-591 | The streams come out sorted by row, with the edits of one row in the order they were added |
| `StableSort.SortByKeepsDistinct` | crates/detent-core/src/doc.rs:589-591 | Sorting keeps rows that are named once named once |
| `StableSort.SortedIsItsSelection` | crates/detent-core/src/doc.rs:589-591 | A sorted stream is its rows' edits one row after the other |
| `Edits.InsertLineIsWellFormed` | crates/detent-core/src/doc.rs:367-395 | Inserting a line keeps the canonical form |
| `Edits.ReplaceRawIsWellFormed` | crates/detent-core/src/doc.rs:403-414 | Replacing a line keeps the canonical form |
| `Edits.RemoveLineIsWellFormed` | crates/detent-core/src/doc.rs:424-439 | Removing a line keeps the canonical form |
| `EditedText.InsertedText` | crates/detent-core/src/doc.rs:367-395 | The text after an insertion is the text with the new line and the dominant terminator between the lines before and behind it, or behind an unterminated last line the terminator and then the new text; Ok exactly for an index up to the length and a text without bytes 10, 13 and 0, with the error otherwise |
| `EditedText.ReplacedText` | crates/detent-core/src/doc.rs:403-414 | The text after a replacement has exactly that line's text exchanged and its terminator kept; Ok and errors exactly |
| `EditedText.RemovedText` | crates/detent-core/src/doc.rs:424-439 | The text after a removal is the text before and behind the line; when the line had no terminator the one before it loses its own |
| `EditedText.DominantMeaning` | crates/detent-core/src/doc.rs:318-336 | CRLF, bytes 13 and 10, exactly when more rows end in CRLF than in LF; otherwise LF, byte 10 |
| `EditedText.SpanIsPlace` | crates/detent-core/src/doc.rs:671-676 | In every canonical document the span of a line cuts exactly its text out of the rendered text |
| `Edits.ApplyPlanIsWellFormed` | crates/detent-core/src/doc.rs:578-628 | Carrying out a well-formed plan keeps the canonical form |
| `Edits.RunIsWellFormed` | crates/detent-core/src/doc.rs:348-439 | Every document reached from a canonical one by any sequence of edits is canonical |
| `Edits.AppendAfterCr` | crates/detent-core/src/doc.rs:658-664 | The failing edit: behind a last line that ends in a CR, an appended empty line moves the CR and leaves the old kind |
| `Edits.RunsCanonicalIff` | crates/detent-core/src/conformance.rs:172-192 | Invariant 4, exactly: all runs of edits from all parsed texts stay canonical if and only if the classifier ignores a trailing CR |
| `Entries.PairedMeaning` | crates/detent-core/src/doc.rs:201-225 | Between two kept entries a plan never both removes a line and adds one, and rewrites no line behind either |
| `Planning.CollectEntries` | crates/detent-core/src/doc.rs:480-489 | The entry rows and the entries, in order |
| `Planning.SettleRun` | crates/detent-core/src/doc.rs:205-225 | One run of changes: deleted lines are rewritten in order while entries last, the rest removed or added; an error names an entry that cannot be written |
| `Planning.SettleAll` | crates/detent-core/src/doc.rs:492-506 | All runs of a script: exactly the wanted entries are made, exactly the Equal lines are kept, and an error is about an entry that the script inserts |
| `Planning.SectionEndMeaning` | crates/detent-core/src/doc.rs:540-569 | A new section goes before the blank and comment lines that lead into the next one, with no section header in between |
| `Planning.FindSectionEnd` | crates/detent-core/src/doc.rs:547-569 | The loop computes that position for any bounds |
| `Planning.NextRows` | crates/detent-core/src/doc.rs:508-517 | For each slot, the row of the next slot that has one |
| `Planning.PlaceNew` | crates/detent-core/src/doc.rs:519-536 | The loop over the slots computes the planned row of every new line; where those rows put the lines is `PlacedPlans.PlanPutsInPlace` |
| `Gaps.AroundNewLine` | crates/detent-core/src/doc.rs:201-225 | Around a new line nothing is removed: every entry row lies at or before the row of an entry in front of it, or at or behind the next kept row |
| `Layout.OrderOfIndices` | crates/detent-core/src/doc.rs:604-623 | In lines laid out as new lines, then the row, row after row, indices follow exactly the order of rows and ranks |
| `Placement.DirectlyBehind` | crates/detent-core/src/doc.rs:452-453 | A line planned for the place behind the entry before it stands directly behind that entry's line |
| `Placement.SectionEnds` | crates/detent-core/src/doc.rs:453-456 | Between the entry before it and a new section header no other header stands, and no blank line or comment stands right before it unless it directly follows the entry |
| `Placement.LeadsOn` | crates/detent-core/src/doc.rs:540-569 | Behind a new section header come, besides wanted entries, only blank lines and comments up to the next header or the next entry that kept its row |
| `Placement.LeadingLine` | crates/detent-core/src/doc.rs:456-458 | A new line with no kept entry before it is directly followed by the next wanted entry, or is the last line |
| `PlacedPlans.PlanPutsInPlace` | crates/detent-core/src/doc.rs:444-538 | For every plan: the lines of the wanted entries stand in order in the merged lines, kept ones where their row went, each standing for its entry; a new line that opens no section directly behind the entry before it, one that opens a section at the end of that entry's section and before what leads into the next, one before every kept entry directly before the next entry or last |
| `Planning.PlanCounts` | crates/detent-core/src/doc.rs:490-506 | changed + removed and changed + added account for every entry that is not kept |
| `Planning.PlanEntries` | crates/detent-core/src/doc.rs:473-538 | Ok is a plan that makes the wanted entries; within the distance cap changed + removed = have - LCS and changed + added = wanted - LCS; an error is about an entry that the chosen script inserts and that cannot be written; the present entries always have a plan, the empty one |
| `Planning.OwnEntriesPlanNothing` | crates/detent-core/src/conformance.rs:112-143 | Invariant 2: asked for the present entries, planning never fails and plans nothing, even when some of them could not be written |
| `Fidelity.KeysAreSorted` | crates/detent-core/src/doc.rs:519-536 | New lines land between their neighbours: positions follow the order of the wanted entries, and none lies past the end |
| `Fidelity.RowFate` | crates/detent-core/src/doc.rs:492-506 | Each row is kept, rewritten once or removed, and holds at most one wanted entry |
| `Fidelity.RowsRead` | crates/detent-core/src/doc.rs:604-622 | Whatever is read row by row from the merged lines is the concatenation of what each row and the lines before it contribute |
| `Fidelity.MergedHoldsWanted` | crates/detent-core/src/doc.rs:604-623 | The merged lines hold exactly the wanted entries, also beside edits of other flavours |
| `Fidelity.NormalizeKeepsEntries` | crates/detent-core/src/doc.rs:658-677 | Normalising loses and adds no entry |
| `EditTheorems.PlanIsWellFormed` | crates/detent-core/src/doc.rs:161-177 | A plan names each row at most once across replace and remove, only entry rows, and only text that stays on its line |
| `EditTheorems.JointFidelity` | crates/detent-core/src/doc.rs:578-628 | One flavour's plan carried out together with plans that leave its entries alone gives exactly its wanted entries |
| `EditTheorems.EditFidelity` | crates/detent-core/src/conformance.rs:145-170 | Invariant 3: after an edit, the entries of the document and of its re-parsed text are exactly the wanted ones, in order, for the Myers script and for the fallback |
| `EditTheorems.EmptyPlanIsNoop` | crates/detent-core/src/doc.rs:578-628 | The empty plan leaves a canonical document identical |
| `EditTheorems.SecondEditIsNoop` | crates/detent-core/src/doc.rs:635-645 | Asking again for what was just made always succeeds, plans nothing and changes nothing |
| `EditTheorems.InjectionIsRefused` | crates/detent-core/src/conformance.rs:194-221 | Invariant 5: a wanted entry whose text holds a line break or NUL, and that the document does not hold yet, has no plan |
| `Flavours.TwoFlavours` | crates/detent-core/src/doc.rs:152-159 | Plans of two flavours, each with its own section headers, joined by extend and carried out in one pass are well formed and give each flavour exactly its wanted entries, in the document and in its re-parsed text |
| `Flavours.ThreeFlavours` | crates/modules/resolver/src/lib.rs:1507-1530 | The same for three flavours with entries of three types, as the resolver module joins them |
| `Flavours.ManyFlavours` | crates/detent-core/src/doc.rs:152-159 | The same for any number of pairwise apart flavours over a common entry type |
| `Flavours.SatisfiedBeside` | crates/detent-core/src/doc.rs:578-628 | A flavour gets exactly its wanted entries beside any plans that leave its entries alone |
| `Preservation.SurvivorsInOrder` | crates/detent-core/src/doc.rs:604-622 | Rows outside the plan keep their order |
| `Preservation.UntouchedSurvives` | crates/detent-core/src/doc.rs:571-628 | In a file that ends in a newline every row outside the plan survives with its text, kind and terminator; in any other file up to the terminator of the last line, the CR move and the one dropped empty last line |
| `Preservation.RewrittenSurvives` | crates/detent-core/src/doc.rs:574-576 | A rewritten row stands at its new index with the plan's text, its class and the terminator it had; without one it takes the dominant terminator, and only the last line of an unterminated file has none |
| `Preservation.NewLineSurvives` | crates/detent-core/src/doc.rs:574-607 | Every new line stands in front of its row, in the order added, or at the end, with the plan's text, its class and the dominant terminator, or none as the last line of an unterminated file |
| `Preservation.AppliedLine` | crates/detent-core/src/doc.rs:622-677 | Carrying out a plan leaves every merged line at its index with its kind and text, but for a CR that joins the terminator and the one dropped empty last line |
| `Document.ParseLines` | crates/detent-core/src/doc.rs:259-279 | The parsing loop computes the lines of the text |
| `Document.TakeInserts` | crates/detent-core/src/doc.rs:605-607 | The lines inserted at a row come in the order they were added |
| `Document.Merge` | crates/detent-core/src/doc.rs:604-623 | The single pass over three sorted streams equals the row-by-row meaning of every well-formed plan, whose effect on rewritten, new and untouched lines is stated in `Preservation` |
| `Document.Document.constructor` | crates/detent-core/src/doc.rs:259-279 | Any text parses, to a canonical document that renders back to it |
| `Document.Document.Text` | crates/detent-core/src/doc.rs:283-293 | The rendering loop gives the document text |
| `Document.Document.DominantEnding` | crates/detent-core/src/doc.rs:321-336 | CRLF exactly when more lines end in it than in LF |
| `Document.Document.Normalise` | crates/detent-core/src/doc.rs:658-677 | The three loops in place compute the normal form without changing a rendered byte |
| `Document.Document.InsertLineAt` | crates/detent-core/src/doc.rs:367-395 | Inserting in place: Ok exactly for a valid index and a text without LF, CR and NUL, and the rendered text with exactly the new line in it; untouched on both errors |
| `Document.Document.ReplaceRawAt` | crates/detent-core/src/doc.rs:403-414 | Replacing in place: Ok exactly for a valid index and text, and the rendered text with exactly that line exchanged; untouched on both errors |
| `Document.Document.RemoveLineAt` | crates/detent-core/src/doc.rs:424-439 | Removing in place: Ok exactly for a valid index, and the rendered text without exactly that line, a missing final newline still missing |
| `Document.Document.CarryOut` | crates/detent-core/src/doc.rs:578-628 | The plan's meaning in place, the report, and the canonical form kept |
| `Document.Document.EditEntries` | crates/detent-core/src/doc.rs:636-645 | On error nothing changed and an inserted entry cannot be written; otherwise a minimal plan was carried out and the entries are the wanted ones; asking for the present entries always succeeds, changes nothing and reports zeros; the canonical form is kept; every new line stands where it should |
| `Document.EditConsequences` | crates/detent-core/src/conformance.rs:112-170 | Fidelity and the no-op, for whatever plan a successful edit carried out |
| `Document.EditIsInPlace` | crates/detent-core/src/doc.rs:444-458 | Whatever plan a successful edit carried out, its lines stand where `PlacedPlans.PlanPutsInPlace` says |
| `Ini.IniKeepsPromises` | crates/detent-core/src/doc.rs:900-921 | The editor's own INI-like format ignores a trailing CR and reads back every entry it writes, so the hypotheses of the editing theorems can be met |
| `Ini.IniFidelity` | crates/detent-core/src/doc.rs:1076-1088 | For every text and every list of its entries, the edited text re-parses to exactly that list |
| `Ini.EditFile` | crates/detent-core/src/doc.rs:927-934 | Parse, edit, render: succeeds whenever every entry stays on its line, leaves the text alone on error and reads back as the wanted entries; asked for its own entries, whatever they are, the file is the same text and the report all zeros |
| `Records.NewRecord` | crates/detent-acme/src/lib.rs:124-130 | A record is built exactly from a plausible name and a printable value; otherwise the error names the first half that is unusable |
| `Order.OwedOrWithdrawn` | crates/detent-acme/src/order.rs:105-167 | A published record is still owed or a later delete withdrew it |
| `Order.StoreAfterRun` | crates/detent-acme/src/order.rs:105-202 | With deletes that succeed, a run that owes nothing leaves the initial store less what it published, up to records of presents that took effect but failed |
| `Order.CleanupChallenges` | crates/detent-acme/src/order.rs:198-202 | Every given record is deleted, whatever the outcomes |
| `Order.DriveChallenge` | crates/detent-acme/src/order.rs:143-165 | Publish, confirm and set_ready in order, each only after the one before succeeded; the first failure is the outcome |
| `Order.PresentChallenges` | crates/detent-acme/src/order.rs:105-167 | Every record presented is `_acme-challenge.` + domain with the digest of a pending authorization; on success exactly the published records are still owed, and that record of every pending authorization was made ready; on every failure nothing is owed and the error is that of the first failing authorization |
| `Order.FinishOrder` | crates/detent-acme/src/order.rs:355-361 | Ok exactly when the order became ready and finalizing succeeded; otherwise the error of the first step that failed, naming a status other than ready |
| `Order.Issue` | crates/detent-acme/src/order.rs:328-351 | Every record presented is `_acme-challenge.` + domain with the digest of a pending authorization, and a successful run made that of each ready; on every exit each published record is withdrawn; stages in order; records are up until the order is finished; the store is restored; Ok exactly when everything succeeded, otherwise the error of the first thing that failed |
| `Deployment.EffectsAreTheStore` | crates/detent-acme/src/order.rs:105-202 | Name by name, the provider operations of a trace that took effect lead to the store the trace describes |
| `Deployment.HookAfterRun` | crates/detent-acme/src/order.rs:328-351 | Challenge files after a run hold at every name the values from before, less what the run published, up to a present that took effect but failed |
| `Deployment.DeSecAfterRun` | crates/detent-acme/src/order.rs:328-351 | So do the record sets of a zone |
| `Polling.ConfirmPropagated` | crates/detent-acme/src/order.rs:175-194 | Pauses only behind NotPropagated and only if the pause ends before the timeout; any other answer is returned as it is |
| `Polling.DelayMeaning` | crates/detent-acme/src/order.rs:169-194 | The first pause is at least a millisecond; the one after attempt i is 2^i times the first, up to the maximum |
| `Polling.PausesEndBeforeTimeout` | crates/detent-acme/src/order.rs:169-194 | All pauses together stay below the timeout, and number less than its milliseconds when the maximum pause is at least one |
| `Propagation.WalkSound` | crates/detent-acme/src/propagation.rs:99-143 | A yes comes from the end of a chain within the hop bound, at a name all of whose servers hold the value |
| `Propagation.WalkComplete` | crates/detent-acme/src/propagation.rs:99-143 | Such a chain gives a yes |
| `Propagation.ProbeMeaning` | crates/detent-acme/src/propagation.rs:90-143 | Yes if and only if there is such a chain of at most four redirects |
| `Propagation.ChainIsStated` | crates/detent-acme/src/propagation.rs:110-127 | Each redirect is stated by a server authoritative for the name before |
| `Propagation.Probe` | crates/detent-acme/src/propagation.rs:99-143 | The nested loops compute that answer, with its errors: Ok if and only if there is such a chain of at most five names |
| `ValueStore.StepValues` | crates/detent-acme/src/lib.rs:173-192 | Adding or removing in the list adds to or removes from the set, and never duplicates |
| `HookProvider.WriteThenRead` | crates/detent-acme/src/lib.rs:291-341 | Values written to a challenge file are the values read back if and only if none but the last ends in a CR |
| `HookProvider.PresentIff` | crates/detent-acme/src/lib.rs:344-350 | For every file: present adds its value behind the others once, if and only if none of the others ends in a CR (or only the last does and the value is there already) |
| `HookProvider.DeleteIff` | crates/detent-acme/src/lib.rs:352-369 | For every file: delete removes only its own value, if and only if the value is not there or no kept value but the last ends in a CR |
| `HookProvider.CrIsSwallowed` | crates/detent-acme/src/lib.rs:306-341 | The failing input: a last value that ends in a CR loses it when another value is written behind it |
| `HookProvider.Refines` | crates/detent-acme/src/lib.rs:291-370 | Over any interleaving, for every file none of whose values ends in a CR, the file is the abstract set, without duplicates; a name has a file exactly as long as it has values, unless it started with an empty file |
| `HookProvider.Provider.Present` | crates/detent-acme/src/lib.rs:344-350 | The file map after present, and the value list of its name |
| `HookProvider.Provider.Delete` | crates/detent-acme/src/lib.rs:352-369 | The file map after delete, and the value list of its name |
| `DeSecProvider.IsValueMeaning` | crates/detent-acme/src/providers.rs:531-534 | Unless an entry for another value spells this one letter for letter, there is one way to read the entries |
| `DeSecProvider.QuotesClash` | crates/detent-acme/src/providers.rs:531-534 | The failing input: next to an entry for the value inside its quotes, a quoted value is neither added by present nor kept apart by delete |
| `DeSecProvider.PresentIff` | crates/detent-acme/src/providers.rs:465-472 | For every record set and value: present is right if and only if there is no such entry or the value is there already |
| `DeSecProvider.PlainIff` | crates/detent-acme/src/providers.rs:464-503 | A value is safe on every record set if and only if it is not itself quoted |
| `DeSecProvider.SubnameIsInjective` | crates/detent-acme/src/providers.rs:400-412 | Different names of a zone have different subnames, the apex included |
| `DeSecProvider.PresentMeaning` | crates/detent-acme/src/providers.rs:465-472 | present adds its value once and touches no other subname, unless an entry clashes with it |
| `DeSecProvider.DeleteMeaning` | crates/detent-acme/src/providers.rs:474-503 | delete removes only its own value, and the record set with the last one, unless an entry clashes with it |
| `DeSecProvider.Refines` | crates/detent-acme/src/providers.rs:464-534 | Over any interleaving of values that are not themselves quoted the record sets are the abstract sets, without duplicates; a name without values has no record set; records outside the zone change nothing |
| `DeSecProvider.Provider.Present` | crates/detent-acme/src/providers.rs:465-472 | The zone after present; unchanged when a request fails or the name is outside it |
| `DeSecProvider.Provider.Delete` | crates/detent-acme/src/providers.rs:474-503 | The zone after delete; unchanged on failure; a value already gone is a success |
| `Wire.NumberRoundTrip` | crates/detent-acme/src/tsig.rs:430-468 | Big-endian numbers of any width read back, 48-bit times among them |
| `Wire.JoinSplit` | crates/detent-acme/src/tsig.rs:409-418 | Joining the labels of a name gives the name |
| `Names.EndsIff` | crates/detent-acme/src/tsig.rs:498-532 | Reading a name ends if and only if it ends within one step more than the message has bytes |
| `Names.EndlessIff` | crates/detent-acme/src/tsig.rs:498-532 | It never ends if and only if it comes back to an offset it left |
| `Wire.BackwardPointersLoop` | crates/detent-acme/src/tsig.rs:498-517 | The failing input: a label followed by a pointer back to it is read for ever, although the pointer points backwards |
| `Wire.AppendName` | crates/detent-acme/src/tsig.rs:409-418 | The loop appends the wire form; an error exactly for a label over 255 bytes |
| `Wire.SkipName` | crates/detent-acme/src/tsig.rs:470-485 | The cursor loop finds the end of a name, compression pointers and unknown label types included |
| `Wire.SkipRecord` | crates/detent-acme/src/tsig.rs:488-496 | The end of a record, or an error when it does not fit |
| `Wire.ReadName` | crates/detent-acme/src/tsig.rs:501-532 | The cursor loop reads the labels of any name, pointers included, with every error; Endless stands exactly for the names on which the source never returns |
| `Wire.ReadNameHasEnd` | crates/detent-acme/src/tsig.rs:470-532 | Every name that read_name reads has an end that skip_name finds |
| `Wire.NameRoundTrip` | crates/detent-acme/src/tsig.rs:409-532 | encode_name, skip_name and read_name agree on every pointer-free name, whatever follows it |
| `Tsig.FindTsig` | crates/detent-acme/src/tsig.rs:236-252 | Skips the questions and every record before the last |
| `Tsig.CheckRecord` | crates/detent-acme/src/tsig.rs:252-291 | Reads the last record, accepting exactly a TSIG of this key and algorithm that ends the message |
| `Tsig.VerifyResponse` | crates/detent-acme/src/tsig.rs:207-323 | Ok if and only if the answer has the right id, is a response without error, and its last record is this key's TSIG with a valid MAC and time; the Endless refusal, for which the source does not return, means that reading a name of the answer never ends |
| `Tsig.TsigReadsBack` | crates/detent-acme/src/tsig.rs:164-291 | The appended record reads back field by field |
| `Tsig.SignedIsAccepted` | crates/detent-acme/src/tsig.rs:116-323 | Every well-formed unsigned response with RCODE 0 that is signed is accepted under the same key, id and request MAC while the clocks differ by at most 300 seconds |
| `TsigLayout.SignedOver` | crates/detent-acme/src/tsig.rs:116-182 | The bytes given to HMAC when signing, read back by offset: the request MAC behind its length if any, the message, the key's name, class 255, four zero bytes, the algorithm's name, the 48-bit time, fudge 300 at +6, error 0 at +8, other length 0 at +10, and the end |
| `TsigLayout.AcceptedOver` | crates/detent-acme/src/tsig.rs:302-310 | The same of the bytes given to HMAC for an accepted answer, with the fields of its record, over the answer up to the record with the original id and one additional record less |
| `TsigLayout.SignedLayout` | crates/detent-acme/src/tsig.rs:164-205 | What is sent, read back by offset: the message with additional count 1, then the key's name, type 250, class 255, lifetime 0, the data length to the end, the algorithm, the time, fudge 300, the MAC behind its length, the id, error 0 and other length 0 |
| `TsigLayout.AnyRecordReads` | crates/detent-acme/src/tsig.rs:252-291 | A TSIG record laid out after section 4.2 of RFC 8945 is read as it was written, whatever its names, time, fudge, MAC, id, error and other data |
| `TsigLayout.U16Bytes` | crates/detent-acme/src/tsig.rs:430-436 | A 16-bit number is its high byte times 256 plus its low byte |
| `TsigLayout.U48Bytes` | crates/detent-acme/src/tsig.rs:438-442 | A 48-bit number is its three 16-bit words, highest first |
| `Responses.BuiltIsWellFormed` | crates/detent-acme/src/tsig.rs:236-252 | A response built from encoded questions and records ends, for the readers that skip them, exactly where it ends |
| `Responses.BuiltIsAccepted` | crates/detent-acme/src/tsig.rs:207-323 | Such a response, signed for the request, is accepted while the clocks differ by at most 300 seconds |
| `Update.BuildTxtRdata` | crates/detent-acme/src/providers.rs:725-737 | The chunk loop builds strings of at most 255 bytes, each behind its length |
| `Update.TxtRoundTrip` | crates/detent-acme/src/providers.rs:722-737 | The strings concatenate back to the value |
| `Update.TxtRdataIsInjective` | crates/detent-acme/src/providers.rs:722-737 | Different values have different data |
| `Update.ZoneForMeaning` | crates/detent-acme/src/providers.rs:702-717 | A record is accepted exactly when the labels of its name end in the labels of the zone |
| `Update.CarriedUpdateMeans` | crates/detent-acme/src/providers.rs:1730-1767 | To the test primary, which does not look at names, a message that carries an update, with any id and anything behind it, adds or removes exactly that one TXT datum |
| `Update.UpdateMeans` | crates/detent-acme/src/providers.rs:739-786 | To that primary, the UPDATE that is built turns the served values S into S + {v} for Add and S - {v} for Remove; only a value over 64 KiB is refused |
| `Primary.RequestReadsBack` | crates/detent-acme/src/providers.rs:739-786 | A message that carries an update reads as flags 0x2800, one zone of type 6 and class 1, no prerequisite and one update of type 16 at this owner name: class 1 and lifetime 60 to add, class 254 and lifetime 0 to remove, with the value's data |
| `Primary.ServedUpdate` | crates/detent-acme/src/providers.rs:739-786 | A primary server of the zone after section 3.4 of RFC 2136 carries it out: at the record's name S becomes S + {v} or S - {v}, and no other name changes |
| `Primary.OtherZoneRefuses` | crates/detent-acme/src/providers.rs:702-717 | The server of any other zone refuses it |
| `Rfc2136Provider.ValidNameIsWire` | crates/detent-acme/src/lib.rs:378-393 | The labels of a valid record name mean themselves on the wire |
| `Rfc2136Provider.AlgorithmNames` | crates/detent-acme/src/tsig.rs:54-61 | The algorithms are named hmac-sha224, hmac-sha256, hmac-sha384 and hmac-sha512 |
| `Rfc2136Provider.StillCarries` | crates/detent-acme/src/providers.rs:676-690 | An id, an additional record and its count change nothing of what a message asks |
| `Rfc2136Provider.OutgoingMeans` | crates/detent-acme/src/providers.rs:670-690 | From a name of the zone to the signed bytes: sent exactly when the value fits, signed by the key over the message with its id, and carried out by the server as above |
| `Rfc2136Provider.Send` | crates/detent-acme/src/providers.rs:676-699 | present and delete: Ok exactly when the change was sent and the key accepts the answer to it |
| `Schedule.RenewsAtTwoThirds` | crates/detent-acme/src/schedule.rs:22-51 | Renewal is due exactly when 100 times the elapsed seconds, as far as 64 bits hold them, reach 66 times the lifetime, or the lifetime is not positive |
| `Schedule.DueAtIff` | crates/detent-acme/src/schedule.rs:71-96 | The predicate turns true exactly at due_at if and only if the lifetime is broken, 66 % of it fit 64 bits, or the window opens before the saturation point |
| `Schedule.OrdinaryLifetimes` | crates/detent-acme/src/schedule.rs:58-96 | So it does for every lifetime of at most i64::MAX, with any window |
| `Schedule.LongestLifetimeIsNotDue` | crates/detent-acme/src/schedule.rs:79-96 | The longest lifetime is a counterexample |
| `Schedule.DecisionAgrees` | crates/detent-acme/src/order.rs:532-554 | For a fetched window and for the fallback, the decision is at all times whether due_at has come, if and only if that instant is representable; other errors are returned |
| `Version.CompareComponents` | crates/detent-core/src/version.rs:37-45 | The loop computes the lexicographic order of the zero-padded components |
| `Version.Compare` | crates/detent-core/src/version.rs:34-46 | No answer exactly when a side is not a version; otherwise that order |
| `Version.AtLeast` | crates/detent-core/src/version.rs:51-53 | Not less |
| `Version.ComparesOnce` | crates/detent-core/src/version.rs:29-46 | There is one answer |
| `Version.ComparesTotal` | crates/detent-core/src/version.rs:29-46 | There always is one |
| `Version.ComparesReversed` | crates/detent-core/src/version.rs:29-46 | Swapping the sides reverses it |
| `Version.ComparesTransitive` | crates/detent-core/src/version.rs:29-46 | Not-greater is transitive, and strict when a step is |
| `Version.EqualIffSignificant` | crates/detent-core/src/version.rs:31-32 | Equal if and only if the components agree after dropping trailing zeros |
| `Version.SuffixIsIgnored` | crates/detent-core/src/version.rs:20-27 | A suffix that starts with neither a digit nor a dot changes nothing |
| `Version.DottedReadsBack` | crates/detent-core/src/version.rs:20-27 | The components of any 64-bit numbers written in decimal with dots between them are those numbers |
| `Version.TenAfterNine` | crates/detent-core/src/version.rs:31-32 | 4.10 is greater than 4.9 |

## Left out

- Wire.ReadName: labels are kept as bytes, without the lossy UTF-8 conversion; where the source would read for ever, the model answers Endless.
- Tsig.VerifyResponse: which answers pass is exact, but an answer with several faults may be refused for another of them than in the source, since neighbouring header fields are read before any of them is judged.
- TsigLayout.SignedLayout: signing is a function of the message instead of appends to a buffer.
- Primary.ServedUpdate: the server keeps TXT data only, without lifetimes, SOA serials and prerequisites.
- Rfc2136Provider.Send: the id, both clock readings and the exchange with the server are given.
- Planning.PlanEntries: a method on the lines instead of a member of the document class; wanted entries compare by an equality, so a `PartialEq` that is not reflexive is not modelled.
- EditTheorems.EditFidelity: assumes what a module owes: each wanted entry is written as a Directive line that parses back to it, parser and classifier ignore a trailing CR, and the empty line is no entry; `Ini.IniKeepsPromises` is a format that does.
- EditTheorems.InjectionIsRefused: an unwritable entry that the document already holds is kept as it is, as in the source.
- HookProvider.Refines: I/O errors, file modes, temporary files and renames are not modelled.
- DeSecProvider.Refines: record sets hold at least one entry, as the service keeps them; HTTP requests are outcomes that succeed or change nothing.
- Order.Issue: a `present` that reports a failure but took effect leaves at most one stray record, which the source does not withdraw either; accounts, orders and finalization are given outcomes.
- Polling.ConfirmPropagated: durations are unbounded instead of saturating, which no timeout can tell apart; clock readings are inputs that do not run behind the pauses.
- Propagation.Probe: the authority gives the same answers throughout one check; error texts do not list the lacking servers.
- `usize` overflow and the saturating index arithmetic around it: indices are unbounded.
- `Document::rebuild` with an arbitrary closure and `Line::new` from outside: they can break the document invariant; only the use inside `apply_plan` is modelled.
- The Cloudflare and acme-dns providers: ids assigned by the server, and a single slot that `delete` clears whole, do not refine the value set.
- HMAC, base64, TLS, HTTP, sockets, random ids, X.509 and PEM: abstract functions or outcomes.
- The C ABI, the configuration modules, the operations engine, the monitor, the update verifier, JSON, schemas, descriptors, localisation and the web console: easy members or not part of this model.
- The since-gate that collects version requirements from a schema, `warning_for` and `choose_profile`: easy members.
