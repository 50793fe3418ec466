/**
 One dns-01 order from the provider's point of view.

 Everything outside this code is an outcome it is handed: what the ACME server answers for each
 authorization, whether the provider's calls succeed, whether a failed `present` took effect all the
 same. A run leaves a trace of the calls it made; the results are about every trace it can leave.
 */
module Order {
  import opened Wrappers
  import opened Records

  datatype Outcome = Done | Failed(error: AcmeError)

  /** One authorization of the order, with the answers to the calls made for it. */
  datatype Authz =
    | FetchFailed(error: AcmeError)
    | NotPending
    | NoChallenge
    | Pending(domain: string, digest: string, present: Outcome, applied: bool, publish: Outcome, confirm: Outcome, ready: Outcome)

  datatype Event =
    | Presented(record: DnsRecord, ok: bool, applied: bool)
    | Published(record: DnsRecord, ok: bool)
    | Confirmed(record: DnsRecord, ok: bool)
    | Ready(record: DnsRecord, ok: bool)
    | Deleted(record: DnsRecord, ok: bool)
    | Finished(ok: bool)

  /** Whether a delete succeeds may depend on everything that happened before it. */
  type Deletes = (seq<Event>, DnsRecord) -> bool

  // ----- reading a trace -----

  /** The records that a successful `present` left to be withdrawn. */
  ghost function Owed(trace: seq<Event>): set<DnsRecord> {
    if trace == [] then {}
    else
      var before, e := Owed(trace[..|trace| - 1]), trace[|trace| - 1];
      if e.Presented? && e.ok then before + {e.record}
      else if e.Deleted? then before - {e.record}
      else before
  }

  /** Every record that a `present` call reported as published. */
  ghost function EverPresented(trace: seq<Event>): set<DnsRecord> {
    if trace == [] then {}
    else
      var e := trace[|trace| - 1];
      EverPresented(trace[..|trace| - 1]) + if e.Presented? && e.ok then {e.record} else {}
  }

  /** Every record that `present` was called with. */
  ghost function Tried(trace: seq<Event>): set<DnsRecord> {
    if trace == [] then {}
    else
      var e := trace[|trace| - 1];
      Tried(trace[..|trace| - 1]) + if e.Presented? then {e.record} else {}
  }

  /** Records of `present` calls that took effect but reported a failure. */
  ghost function Stray(trace: seq<Event>): set<DnsRecord> {
    if trace == [] then {}
    else
      var e := trace[|trace| - 1];
      Stray(trace[..|trace| - 1]) + if e.Presented? && !e.ok && e.applied then {e.record} else {}
  }

  /** What the provider serves after the trace. */
  ghost function Store(initial: set<DnsRecord>, trace: seq<Event>): set<DnsRecord> {
    if trace == [] then initial
    else
      var before, e := Store(initial, trace[..|trace| - 1]), trace[|trace| - 1];
      if e.Presented? && (e.ok || e.applied) then before + {e.record}
      else if e.Deleted? && e.ok then before - {e.record}
      else before
  }

  ghost predicate DeletesSucceed(trace: seq<Event>) {
    forall i :: 0 <= i < |trace| && trace[i].Deleted? ==> trace[i].ok
  }

  /** Each published record is withdrawn later in the trace. */
  ghost predicate AllWithdrawn(trace: seq<Event>) {
    forall i :: 0 <= i < |trace| && trace[i].Presented? && trace[i].ok ==> WithdrawnAfter(trace, i)
  }

  ghost predicate WithdrawnAfter(trace: seq<Event>, i: nat)
    requires i < |trace| && trace[i].Presented?
  {
    exists j :: i < j < |trace| && trace[j].Deleted? && trace[j].record == trace[i].record
  }

  /** `e` may directly follow `previous`: a stage starts only after the one before it succeeded. */
  ghost predicate MayFollow(previous: Option<Event>, e: Event) {
    && (e.Published? ==> previous == Some(Presented(e.record, true, true)))
    && (e.Confirmed? ==> previous == Some(Published(e.record, true)))
    && (e.Ready? ==> previous == Some(Confirmed(e.record, true)))
  }

  ghost function Previous(trace: seq<Event>, i: nat): Option<Event>
    requires i <= |trace|
  {
    if i == 0 then None else Some(trace[i - 1])
  }

  /** The calls for one record come in order, each directly after the previous one succeeded. */
  ghost predicate InStages(trace: seq<Event>) {
    forall i :: 0 <= i < |trace| ==> MayFollow(Previous(trace, i), trace[i])
  }

  /** Only records that were published in this run are withdrawn. */
  ghost predicate OnlyOwnDeletes(trace: seq<Event>) {
    forall i :: 0 <= i < |trace| && trace[i].Deleted? ==> trace[i].record in EverPresented(trace[..i])
  }

  // ----- what traces mean for the store -----

  lemma {:induction false} Push(trace: seq<Event>, e: Event)
    ensures Owed(trace + [e]) == (if e.Presented? && e.ok then Owed(trace) + {e.record}
                                  else if e.Deleted? then Owed(trace) - {e.record} else Owed(trace))
    ensures EverPresented(trace + [e]) == EverPresented(trace) + if e.Presented? && e.ok then {e.record} else {}
    ensures Stray(trace + [e]) == Stray(trace) + if e.Presented? && !e.ok && e.applied then {e.record} else {}
    ensures Tried(trace + [e]) == Tried(trace) + if e.Presented? then {e.record} else {}
  {
    assert (trace + [e])[..|trace|] == trace;
  }

  /** Nothing owed means everything was withdrawn. */
  lemma {:induction false} OwedOrWithdrawn(trace: seq<Event>, i: nat)
    requires i < |trace| && trace[i].Presented? && trace[i].ok
    ensures trace[i].record in Owed(trace) || WithdrawnAfter(trace, i)
  {
    var n := |trace| - 1;
    if i < n {
      var before := trace[..n];
      OwedOrWithdrawn(before, i);
      if WithdrawnAfter(before, i) {
        var j :| i < j < |before| && before[j].Deleted? && before[j].record == before[i].record;
        assert trace[j].Deleted? && trace[j].record == trace[i].record;
      }
    }
  }

  lemma {:induction false} NothingOwed(trace: seq<Event>)
    requires Owed(trace) == {}
    ensures AllWithdrawn(trace)
  {
    forall i | 0 <= i < |trace| && trace[i].Presented? && trace[i].ok ensures WithdrawnAfter(trace, i) {
      OwedOrWithdrawn(trace, i);
    }
  }

  /** With deletes that succeed, the store holds what it held before, less what was published, plus what is owed or stray. */
  lemma {:induction false} StoreMeaning(initial: set<DnsRecord>, trace: seq<Event>, r: DnsRecord)
    requires DeletesSucceed(trace) && OnlyOwnDeletes(trace)
    ensures r in Store(initial, trace) ==> r in Owed(trace) || r in Stray(trace) || r in initial
    ensures r in EverPresented(trace) && r !in Owed(trace) && r !in Stray(trace) ==> r !in Store(initial, trace)
    ensures r in initial && r !in EverPresented(trace) ==> r in Store(initial, trace)
    ensures r in Owed(trace) ==> r in EverPresented(trace)
  {
    if trace != [] {
      var before := trace[..|trace| - 1];
      assert DeletesSucceed(before);
      forall i | 0 <= i < |before| && before[i].Deleted? ensures before[i].record in EverPresented(before[..i]) {
        assert before[..i] == trace[..i];
      }
      StoreMeaning(initial, before, r);
      assert trace[|trace| - 1].Deleted? ==> trace[|trace| - 1].record in EverPresented(before);
    }
  }

  /** A run that owes nothing and left no stray gives the store back, less the records it published. */
  lemma {:induction false} StoreAfterRun(initial: set<DnsRecord>, trace: seq<Event>)
    requires DeletesSucceed(trace) && OnlyOwnDeletes(trace) && Owed(trace) == {}
    ensures initial - EverPresented(trace) <= Store(initial, trace) <= initial - EverPresented(trace) + Stray(trace)
  {
    forall r | r in initial - EverPresented(trace) ensures r in Store(initial, trace) {
      StoreMeaning(initial, trace, r);
    }
    forall r | r in Store(initial, trace) ensures r in initial - EverPresented(trace) + Stray(trace) {
      StoreMeaning(initial, trace, r);
    }
  }

  // ----- the run -----

  function SetOf(records: seq<DnsRecord>): set<DnsRecord> {
    set r | r in records
  }

  predicate Valid(record: DnsRecord) {
    ValidFqdn(record.fqdn) && ValidValue(record.value)
  }

  /** Only records that passed the checks are published. */
  ghost predicate OnlyValid(trace: seq<Event>) {
    forall i :: 0 <= i < |trace| && trace[i].Presented? ==> Valid(trace[i].record)
  }

  /** What every step of a run keeps. */
  ghost predicate Sound(trace: seq<Event>) {
    InStages(trace) && OnlyOwnDeletes(trace) && OnlyValid(trace)
  }

  lemma {:induction false} OwnDeletesPush(trace: seq<Event>, e: Event)
    requires OnlyOwnDeletes(trace) && (e.Deleted? ==> e.record in EverPresented(trace))
    ensures OnlyOwnDeletes(trace + [e])
  {
    var t := trace + [e];
    forall i | 0 <= i < |t| && t[i].Deleted? ensures t[i].record in EverPresented(t[..i]) {
      assert t[..i] == trace[..i];
      assert trace[..|trace|] == trace;
    }
  }

  lemma {:induction false} SoundPush(trace: seq<Event>, e: Event)
    requires Sound(trace) && MayFollow(Previous(trace, |trace|), e)
    requires e.Deleted? ==> e.record in EverPresented(trace)
    requires e.Presented? ==> Valid(e.record)
    ensures Sound(trace + [e])
  {
    OwnDeletesPush(trace, e);
  }

  ghost predicate NotFinished(trace: seq<Event>) {
    forall i :: 0 <= i < |trace| ==> !trace[i].Finished?
  }

  /** What was appended to a trace holds no `Finished`. */
  ghost predicate ExtendsUnfinished(trace: seq<Event>, after: seq<Event>) {
    trace <= after && forall i :: |trace| <= i < |after| ==> !after[i].Finished?
  }

  /** Deletes every record, whatever the outcomes. */
  method CleanupChallenges(records: seq<DnsRecord>, del: Deletes, trace: seq<Event>) returns (after: seq<Event>)
    requires Sound(trace) && SetOf(records) <= EverPresented(trace)
    ensures Sound(after) && ExtendsUnfinished(trace, after)
    ensures Owed(after) == Owed(trace) - SetOf(records)
    ensures EverPresented(after) == EverPresented(trace) && Stray(after) == Stray(trace) && Tried(after) == Tried(trace)
  {
    after := trace;
    for i := 0 to |records|
      invariant Sound(after) && ExtendsUnfinished(trace, after)
      invariant Owed(after) == Owed(trace) - SetOf(records[..i])
      invariant EverPresented(after) == EverPresented(trace) && Stray(after) == Stray(trace) && Tried(after) == Tried(trace)
    {
      var e := Deleted(records[i], del(after, records[i]));
      assert records[i] in SetOf(records);
      SoundPush(after, e);
      Push(after, e);
      assert SetOf(records[..i + 1]) == SetOf(records[..i]) + {records[i]};
      after := after + [e];
    }
    assert records[..|records|] == records;
  }

  /** What one failed or finished authorization leaves: the records still to withdraw, or the reason to stop. */
  ghost predicate Keeps(trace: seq<Event>, presented: seq<DnsRecord>) {
    Sound(trace) && Owed(trace) == SetOf(presented) && SetOf(presented) <= EverPresented(trace)
  }

  lemma KeepsPresent(trace: seq<Event>, presented: seq<DnsRecord>, r: DnsRecord)
    requires Keeps(trace, presented) && Valid(r)
    ensures Keeps(trace + [Presented(r, true, true)], presented + [r])
  {
    var e := Presented(r, true, true);
    SoundPush(trace, e);
    Push(trace, e);
    assert SetOf(presented + [r]) == SetOf(presented) + {r};
  }

  /** Withdraws the record at hand and everything presented before it. */
  method Abandon(record: DnsRecord, presented: seq<DnsRecord>, del: Deletes, trace: seq<Event>) returns (after: seq<Event>)
    requires Keeps(trace, presented + [record])
    ensures Sound(after) && Owed(after) == {} && ExtendsUnfinished(trace, after)
    ensures EverPresented(after) == EverPresented(trace) && Stray(after) == Stray(trace) && Tried(after) == Tried(trace)
  {
    var e := Deleted(record, del(trace, record));
    assert record in SetOf(presented + [record]);
    assert SetOf(presented + [record]) == SetOf(presented) + {record};
    SoundPush(trace, e);
    Push(trace, e);
    after := CleanupChallenges(presented, del, trace + [e]);
  }

  /** The TXT record that proves control of a domain. */
  function RecordFor(domain: string, digest: string): (r: Result<DnsRecord, AcmeError>)
    ensures r.Ok? ==> r.value == DnsRecord("_acme-challenge." + domain, digest)
    ensures r.Ok? <==> ValidFqdn("_acme-challenge." + domain) && ValidValue(digest)
  {
    NewRecord("_acme-challenge." + domain, digest)
  }

  /** `r` is the challenge record of a pending authorization. */
  ghost predicate ChallengeOf(auths: seq<Authz>, r: DnsRecord) {
    exists a :: a in auths && a.Pending? && r == DnsRecord("_acme-challenge." + a.domain, a.digest)
  }

  /** `present` is called with nothing but the challenge records of pending authorizations. */
  ghost predicate OnlyChallenges(auths: seq<Authz>, trace: seq<Event>) {
    forall i :: 0 <= i < |trace| && trace[i].Presented? ==> ChallengeOf(auths, trace[i].record)
  }

  ghost predicate TriedOnly(auths: seq<Authz>, trace: seq<Event>) {
    forall r :: r in Tried(trace) ==> ChallengeOf(auths, r)
  }

  lemma {:induction false} PresentedIsTried(trace: seq<Event>, i: nat)
    requires i < |trace| && trace[i].Presented?
    ensures trace[i].record in Tried(trace)
    decreases |trace|
  {
    if i < |trace| - 1 {
      PresentedIsTried(trace[..|trace| - 1], i);
    }
  }

  lemma {:induction false} OnlyTried(auths: seq<Authz>, trace: seq<Event>)
    requires TriedOnly(auths, trace)
    ensures OnlyChallenges(auths, trace)
  {
    forall i | 0 <= i < |trace| && trace[i].Presented? ensures ChallengeOf(auths, trace[i].record) {
      PresentedIsTried(trace, i);
    }
  }

  /** The CA was told that the challenge record of every pending authorization is ready. */
  ghost predicate ChallengesReady(auths: seq<Authz>, trace: seq<Event>) {
    forall a :: a in auths && a.Pending? ==> Ready(DnsRecord("_acme-challenge." + a.domain, a.digest), true) in trace
  }

  /** The first of the calls after `present` that failed, if any. */
  function DriveOutcome(a: Authz): Outcome
    requires a.Pending?
  {
    if a.publish.Failed? then a.publish else if a.confirm.Failed? then a.confirm else a.ready
  }

  lemma {:induction false} Stage(start: seq<Event>, trace: seq<Event>, presented: seq<DnsRecord>, e: Event)
    requires Keeps(trace, presented) && ExtendsUnfinished(start, trace) && MayFollow(Previous(trace, |trace|), e)
    requires e.Published? || e.Confirmed? || e.Ready?
    ensures Keeps(trace + [e], presented) && ExtendsUnfinished(start, trace + [e])
    ensures EverPresented(trace + [e]) == EverPresented(trace) && Stray(trace + [e]) == Stray(trace)
    ensures Tried(trace + [e]) == Tried(trace)
  {
    SoundPush(trace, e);
    Push(trace, e);
  }

  /** The calls made for one published record, up to the first that fails. */
  method DriveChallenge(a: Authz, record: DnsRecord, presented: seq<DnsRecord>, trace: seq<Event>)
    returns (outcome: Outcome, after: seq<Event>)
    requires a.Pending? && a.present.Done? && Keeps(trace, presented) && Valid(record)
    ensures Keeps(after, presented + [record]) && ExtendsUnfinished(trace, after) && Stray(after) == Stray(trace)
    ensures EverPresented(after) == EverPresented(trace) + {record} && Tried(after) == Tried(trace) + {record}
    ensures outcome == DriveOutcome(a)
    ensures outcome.Done? ==> Ready(record, true) in after
  {
    KeepsPresent(trace, presented, record);
    Push(trace, Presented(record, true, true));
    after := trace + [Presented(record, true, true)];
    var publish := Published(record, a.publish.Done?);
    Stage(trace, after, presented + [record], publish);
    after := after + [publish];
    if a.publish.Failed? {
      return a.publish, after;
    }
    var confirm := Confirmed(record, a.confirm.Done?);
    Stage(trace, after, presented + [record], confirm);
    after := after + [confirm];
    if a.confirm.Failed? {
      return a.confirm, after;
    }
    var ready := Ready(record, a.ready.Done?);
    Stage(trace, after, presented + [record], ready);
    after := after + [ready];
    assert after[|after| - 1] == ready;
    return a.ready, after;
  }

  /** Everything asked for this authorization went well, or nothing was asked. */
  predicate Succeeds(a: Authz) {
    a.NotPending? ||
    (a.Pending? && RecordFor(a.domain, a.digest).Ok? && a.present.Done? && a.publish.Done? && a.confirm.Done? && a.ready.Done?)
  }

  /** The first thing that went wrong for an authorization. */
  function ErrorOf(a: Authz): AcmeError
    requires !Succeeds(a)
  {
    match a
    case FetchFailed(error) => error
    case NoChallenge => NoDns01Challenge
    case Pending(domain, digest, present, _, publish, confirm, ready) =>
      if RecordFor(domain, digest).Err? then RecordFor(domain, digest).error
      else if present.Failed? then present.error
      else if publish.Failed? then publish.error
      else if confirm.Failed? then confirm.error
      else ready.error
  }

  /** `e` is the error of the first authorization that failed. */
  ghost predicate FirstFailure(auths: seq<Authz>, e: AcmeError) {
    exists i :: 0 <= i < |auths| && !Succeeds(auths[i]) && e == ErrorOf(auths[i]) && forall k :: 0 <= k < i ==> Succeeds(auths[k])
  }

  /** The CA was told that the record of this authorization is ready. */
  ghost predicate ToldReady(a: Authz, trace: seq<Event>) {
    a.Pending? ==> Ready(DnsRecord("_acme-challenge." + a.domain, a.digest), true) in trace
  }

  /** A run so far without failure. */
  ghost predicate Going(trace: seq<Event>, presented: seq<DnsRecord>) {
    Keeps(trace, presented) && Stray(trace) == {} && EverPresented(trace) == SetOf(presented) && NotFinished(trace)
  }

  /** A run that stopped: nothing is owed any more. */
  ghost predicate Stopped(trace: seq<Event>) {
    Sound(trace) && Owed(trace) == {} && |Stray(trace)| <= 1 && NotFinished(trace)
  }

  /** Withdraws everything after a failure that left no record of its own. */
  method Stop(presented: seq<DnsRecord>, del: Deletes, trace: seq<Event>) returns (after: seq<Event>)
    requires Keeps(trace, presented) && |Stray(trace)| <= 1 && NotFinished(trace)
    ensures Stopped(after) && Tried(after) == Tried(trace)
  {
    after := CleanupChallenges(presented, del, trace);
    UnfinishedExtends(trace, after);
  }

  /** Withdraws everything after a failure of the record at hand. */
  method Withdraw(record: DnsRecord, presented: seq<DnsRecord>, del: Deletes, trace: seq<Event>) returns (after: seq<Event>)
    requires Keeps(trace, presented + [record]) && |Stray(trace)| <= 1 && NotFinished(trace)
    ensures Stopped(after) && Tried(after) == Tried(trace)
  {
    after := Abandon(record, presented, del, trace);
    UnfinishedExtends(trace, after);
  }

  /** A pending authorization whose record could be built. */
  method PresentOne(a: Authz, record: DnsRecord, presented: seq<DnsRecord>, del: Deletes, trace: seq<Event>)
    returns (outcome: Outcome, after: seq<Event>)
    requires a.Pending? && Going(trace, presented) && Valid(record)
    ensures outcome == if a.present.Failed? then a.present else DriveOutcome(a)
    ensures outcome.Done? ==> Going(after, presented + [record]) && trace <= after && Ready(record, true) in after
    ensures outcome.Failed? ==> Stopped(after)
    ensures Tried(after) == Tried(trace) + {record}
  {
    if a.present.Failed? {
      var e := Presented(record, false, a.applied);
      SoundPush(trace, e);
      Push(trace, e);
      OneAtMost(Stray(trace + [e]), record);
      after := Stop(presented, del, trace + [e]);
      return a.present, after;
    }
    outcome, after := DriveChallenge(a, record, presented, trace);
    if outcome.Failed? {
      UnfinishedExtends(trace, after);
      after := Withdraw(record, presented, del, after);
      return;
    }
    GoesOn(trace, after, presented, record);
  }

  lemma {:induction false} GoesOn(trace: seq<Event>, after: seq<Event>, presented: seq<DnsRecord>, record: DnsRecord)
    requires Going(trace, presented) && Keeps(after, presented + [record]) && ExtendsUnfinished(trace, after)
    requires Stray(after) == Stray(trace) && EverPresented(after) == EverPresented(trace) + {record}
    ensures Going(after, presented + [record])
  {
    assert SetOf(presented + [record]) == SetOf(presented) + {record};
    UnfinishedExtends(trace, after);
  }

  lemma UnfinishedExtends(trace: seq<Event>, after: seq<Event>)
    requires NotFinished(trace) && ExtendsUnfinished(trace, after)
    ensures NotFinished(after)
  {
    forall i | 0 <= i < |after| ensures !after[i].Finished? {
      if i < |trace| {
        assert after[i] == trace[i];
      }
    }
  }

  /** Handles one authorization; when it fails, everything presented so far is withdrawn. */
  method HandleAuthz(a: Authz, presented: seq<DnsRecord>, del: Deletes, trace: seq<Event>)
    returns (outcome: Outcome, now: seq<DnsRecord>, after: seq<Event>)
    requires Going(trace, presented)
    ensures outcome.Done? <==> Succeeds(a)
    ensures outcome.Failed? ==> outcome.error == ErrorOf(a) && Stopped(after)
    ensures outcome.Done? ==> Going(after, now) && trace <= after && ToldReady(a, after)
    ensures TriesOnly(a, trace, after)
  {
    now, after := presented, trace;
    match a
    case FetchFailed(error) =>
      after := Stop(presented, del, trace);
      outcome := Failed(error);
    case NotPending =>
      outcome := Done;
    case NoChallenge =>
      after := Stop(presented, del, trace);
      outcome := Failed(NoDns01Challenge);
    case Pending(_, _, _, _, _, _, _) =>
      outcome, now, after := HandlePending(a, presented, del, trace);
  }

  /** Builds the record of a pending authorization and presents it. */
  method HandlePending(a: Authz, presented: seq<DnsRecord>, del: Deletes, trace: seq<Event>)
    returns (outcome: Outcome, now: seq<DnsRecord>, after: seq<Event>)
    requires a.Pending? && Going(trace, presented)
    ensures outcome.Done? <==> Succeeds(a)
    ensures outcome.Failed? ==> outcome.error == ErrorOf(a) && Stopped(after)
    ensures outcome.Done? ==> Going(after, now) && trace <= after && ToldReady(a, after)
    ensures TriesOnly(a, trace, after)
  {
    var built := RecordFor(a.domain, a.digest);
    if built.Err? {
      after := Stop(presented, del, trace);
      return Failed(built.error), presented, after;
    }
    outcome, after := PresentOne(a, built.value, presented, del, trace);
    now := presented + [built.value];
  }

  /** For this authorization `present` is called with nothing but its challenge record. */
  ghost predicate TriesOnly(a: Authz, trace: seq<Event>, after: seq<Event>) {
    Tried(after) <= Tried(trace) + if a.Pending? then {DnsRecord("_acme-challenge." + a.domain, a.digest)} else {}
  }

  /**
   Presents a record for every pending authorization. On success the records are still to be withdrawn;
   on every failure they have been.
   */
  method PresentChallenges(auths: seq<Authz>, del: Deletes) returns (r: Result<seq<DnsRecord>, AcmeError>, trace: seq<Event>)
    ensures Sound(trace) && NotFinished(trace)
    ensures r.Ok? ==> Owed(trace) == SetOf(r.value) == EverPresented(trace) && Stray(trace) == {}
    ensures r.Err? ==> Owed(trace) == {} && |Stray(trace)| <= 1
    ensures r.Ok? ==> (forall i :: 0 <= i < |auths| ==> Succeeds(auths[i])) && ChallengesReady(auths, trace)
    ensures r.Err? ==> FirstFailure(auths, r.error)
    ensures OnlyChallenges(auths, trace) && TriedOnly(auths, trace)
  {
    var presented: seq<DnsRecord> := [];
    trace := [];
    for i := 0 to |auths|
      invariant Going(trace, presented) && AllReady(auths, i, trace)
      invariant OnlyChallenges(auths, trace) && TriedOnly(auths, trace)
    {
      ghost var before := trace;
      var outcome;
      outcome, presented, trace := HandleAuthz(auths[i], presented, del, trace);
      TriedOneMore(auths, i, before, trace);
      OnlyTried(auths, trace);
      if outcome.Failed? {
        return Err(outcome.error), trace;
      }
      OneMoreReady(auths, i, before, trace);
    }
    return Ok(presented), trace;
  }

  lemma {:induction false} TriedOneMore(auths: seq<Authz>, n: nat, trace: seq<Event>, after: seq<Event>)
    requires TriedOnly(auths, trace) && n < |auths| && TriesOnly(auths[n], trace, after)
    ensures TriedOnly(auths, after)
  {
    assert auths[n] in auths;
  }

  /** The first `n` authorizations went well and the CA was told so. */
  ghost predicate AllReady(auths: seq<Authz>, n: nat, trace: seq<Event>) {
    n <= |auths| && forall k :: 0 <= k < n ==> Succeeds(auths[k]) && ToldReady(auths[k], trace)
  }

  lemma OneMoreReady(auths: seq<Authz>, n: nat, trace: seq<Event>, after: seq<Event>)
    requires AllReady(auths, n, trace) && n < |auths| && trace <= after
    requires Succeeds(auths[n]) && ToldReady(auths[n], after)
    ensures AllReady(auths, n + 1, after)
  {
    forall k | 0 <= k < n ensures ToldReady(auths[k], after) {
    }
  }

  lemma OneAtMost(s: set<DnsRecord>, r: DnsRecord)
    requires s <= {r}
    ensures |s| <= 1
  {
    if s != {} {
      assert s == {r};
    }
  }

  // ----- the order around it -----

  datatype Issued = Issued(chain: string, key: string)

  /** `ready` first, then finalization; any other status is an error. */
  function FinishOrder(status: Result<OrderStatus, AcmeError>, finalized: Result<Issued, AcmeError>): (r: Result<Issued, AcmeError>)
    ensures r.Ok? <==> status == Ok(OrderReady) && finalized.Ok?
    ensures r.Err? ==>
      || (status.Err? && r.error == status.error)
      || (status.Ok? && !status.value.OrderReady? && r.error == InvalidOrder(status.value))
      || (status == Ok(OrderReady) && r == finalized)
    ensures r.Ok? ==> r == finalized
  {
    match status
    case Err(e) => Err(e)
    case Ok(s) => if s.OrderReady? then finalized else Err(InvalidOrder(s))
  }

  /**
   A whole order. However it ends, every record whose `present` succeeded is withdrawn before it returns, and
   no record is declared ready except right after its propagation check passed.
   */
  method Issue(account: Outcome, auths: seq<Authz>, status: Result<OrderStatus, AcmeError>,
               finalized: Result<Issued, AcmeError>, del: Deletes)
    returns (r: Result<Issued, AcmeError>, trace: seq<Event>)
    ensures AllWithdrawn(trace) && Sound(trace) && Owed(trace) == {} && |Stray(trace)| <= 1
    ensures account.Failed? ==> r == Err(account.error) && trace == []
    ensures account.Done? && r.Err? ==>
      FirstFailure(auths, r.error) || ((forall i :: 0 <= i < |auths| ==> Succeeds(auths[i])) && r == FinishOrder(status, finalized))
    ensures r.Ok? <==> account.Done? && (forall i :: 0 <= i < |auths| ==> Succeeds(auths[i])) && FinishOrder(status, finalized).Ok?
    ensures r.Ok? ==> r == finalized && Stray(trace) == {} && ChallengesReady(auths, trace)
    ensures OnlyChallenges(auths, trace)
    ensures PublishedUntilFinished(trace)
    ensures DeletesSucceed(trace) ==> forall initial :: StoreRestored(initial, trace)
  {
    trace := [];
    if account.Failed? {
      RunRestoresStore(trace);
      return Err(account.error), trace;
    }
    var presented;
    presented, trace := PresentChallenges(auths, del);
    if presented.Err? {
      NothingOwed(trace);
      RunRestoresStore(trace);
      return Err(presented.error), trace;
    }
    r := FinishOrder(status, finalized);
    var after := CloseOrder(presented.value, r.Ok?, auths, del, trace);
    ReadyStays(auths, trace, after);
    trace := after;
    NothingOwed(trace);
    RunRestoresStore(trace);
  }

  /** Notes how the order ended and withdraws every record. */
  method CloseOrder(records: seq<DnsRecord>, ok: bool, ghost auths: seq<Authz>, del: Deletes, trace: seq<Event>)
    returns (after: seq<Event>)
    requires Sound(trace) && NotFinished(trace) && Owed(trace) == SetOf(records) == EverPresented(trace) && Stray(trace) == {}
    requires TriedOnly(auths, trace)
    ensures Sound(after) && trace <= after && Owed(after) == {} && Stray(after) == {}
    ensures PublishedUntilFinished(after) && OnlyChallenges(auths, after)
  {
    var e := Finished(ok);
    SoundPush(trace, e);
    Push(trace, e);
    after := CleanupChallenges(records, del, trace + [e]);
    FinishedOnce(trace, e, after);
    OnlyTried(auths, after);
  }

  lemma ReadyStays(auths: seq<Authz>, trace: seq<Event>, after: seq<Event>)
    requires ChallengesReady(auths, trace) && trace <= after
    ensures ChallengesReady(auths, after)
  {
    forall a | a in auths && a.Pending? ensures Ready(DnsRecord("_acme-challenge." + a.domain, a.digest), true) in after {
      assert Ready(DnsRecord("_acme-challenge." + a.domain, a.digest), true) in trace;
    }
  }

  /** Every record the run published is still up when the order is finished. */
  ghost predicate PublishedUntilFinished(trace: seq<Event>) {
    forall i :: 0 <= i < |trace| && trace[i].Finished? ==> Owed(trace[..i]) == EverPresented(trace[..i])
  }

  lemma {:induction false} FinishedOnce(trace: seq<Event>, e: Event, after: seq<Event>)
    requires NotFinished(trace) && ExtendsUnfinished(trace + [e], after) && Owed(trace) == EverPresented(trace)
    ensures PublishedUntilFinished(after)
  {
    assert after[..|trace|] == trace;
    assert forall i :: 0 <= i < |trace| ==> after[i] == trace[i];
  }

  /** The store is the initial one less what the run published, but for a stray record it never owned. */
  ghost predicate StoreRestored(initial: set<DnsRecord>, trace: seq<Event>) {
    && initial - EverPresented(trace) <= Store(initial, trace) <= initial - EverPresented(trace) + Stray(trace)
    && (Stray(trace) == {} ==> Store(initial, trace) == initial - EverPresented(trace))
  }

  lemma {:induction false} RunRestoresStore(trace: seq<Event>)
    requires Sound(trace) && Owed(trace) == {}
    ensures DeletesSucceed(trace) ==> forall initial :: StoreRestored(initial, trace)
  {
    if DeletesSucceed(trace) {
      forall initial: set<DnsRecord> ensures StoreRestored(initial, trace) {
        StoreAfterRun(initial, trace);
      }
    }
  }
}
