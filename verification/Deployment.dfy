/**
 An order carried out on a real provider: the calls of a trace that took effect are operations on challenge files or
 record sets, and what they leave there is what the trace says about the store.
 */
module Deployment {
  import opened Records
  import opened ValueStore
  import opened Order
  import HookProvider
  import DeSecProvider

  /** The provider operations of a trace that took effect, in order. */
  ghost function Effects(trace: seq<Event>): seq<Op> {
    if trace == [] then []
    else
      var before, e := Effects(trace[..|trace| - 1]), trace[|trace| - 1];
      if e.Presented? && (e.ok || e.applied) then before + [Present(e.record)]
      else if e.Deleted? && e.ok then before + [Delete(e.record)]
      else before
  }

  /** The values a store serves at a name. */
  ghost function ServedAt(store: set<DnsRecord>, name: string): set<string> {
    set r | r in store && r.fqdn == name :: r.value
  }

  ghost function RecordsAt(name: string, values: set<string>): set<DnsRecord> {
    set v | v in values :: DnsRecord(name, v)
  }

  lemma ServedRecords(name: string, values: set<string>)
    ensures ServedAt(RecordsAt(name, values), name) == values
  {
    forall v | v in values ensures v in ServedAt(RecordsAt(name, values), name) {
      assert DnsRecord(name, v) in RecordsAt(name, values);
    }
  }

  lemma ServedWith(store: set<DnsRecord>, r: DnsRecord, name: string)
    ensures ServedAt(store + {r}, name) == ServedAt(store, name) + if r.fqdn == name then {r.value} else {}
    ensures ServedAt(store - {r}, name) == ServedAt(store, name) - if r.fqdn == name then {r.value} else {}
  {
    forall v | v in ServedAt(store, name) + if r.fqdn == name then {r.value} else {} ensures v in ServedAt(store + {r}, name) {
      assert DnsRecord(name, v) in store + {r};
    }
    forall v | v in ServedAt(store, name) - if r.fqdn == name then {r.value} else {} ensures v in ServedAt(store - {r}, name) {
      assert DnsRecord(name, v) in store - {r};
    }
  }

  lemma {:induction false} AbstractPush(values: set<string>, ops: seq<Op>, op: Op, name: string)
    ensures AbstractRun(values, ops + [op], name) == AbstractStep(AbstractRun(values, ops, name), op, name)
  {
    assert (ops + [op])[..|ops|] == ops;
  }

  /** Name by name, the abstract store after the effects is the store of the trace. */
  lemma {:induction false} EffectsAreTheStore(initial: set<DnsRecord>, trace: seq<Event>, name: string)
    ensures AbstractRun(ServedAt(initial, name), Effects(trace), name) == ServedAt(Store(initial, trace), name)
  {
    if trace != [] {
      var before, e := trace[..|trace| - 1], trace[|trace| - 1];
      EffectsAreTheStore(initial, before, name);
      if e.Presented? && (e.ok || e.applied) {
        ServedWith(Store(initial, before), e.record, name);
        AbstractPush(ServedAt(initial, name), Effects(before), Present(e.record), name);
      } else if e.Deleted? && e.ok {
        ServedWith(Store(initial, before), e.record, name);
        AbstractPush(ServedAt(initial, name), Effects(before), Delete(e.record), name);
      }
    }
  }

  lemma {:induction false} PresentedSomewhere(trace: seq<Event>, r: DnsRecord)
    requires r in EverPresented(trace)
    ensures exists i :: 0 <= i < |trace| && trace[i].Presented? && trace[i].record == r
  {
    var n := |trace| - 1;
    if r in EverPresented(trace[..n]) {
      PresentedSomewhere(trace[..n], r);
      var i :| 0 <= i < n && trace[..n][i].Presented? && trace[..n][i].record == r;
      assert trace[i].record == r;
    }
  }

  /** Every effect is about a record that the run presented. */
  lemma {:induction false} EffectsAreOwn(trace: seq<Event>, i: nat)
    requires OnlyOwnDeletes(trace) && i < |Effects(trace)|
    ensures exists k :: 0 <= k < |trace| && trace[k].Presented? && trace[k].record == Effects(trace)[i].record
  {
    var n := |trace| - 1;
    var before, e := trace[..n], trace[n];
    if i < |Effects(before)| {
      forall j | 0 <= j < n && before[j].Deleted? ensures before[j].record in EverPresented(before[..j]) {
        assert before[..j] == trace[..j];
      }
      EffectsAreOwn(before, i);
      var k :| 0 <= k < n && before[k].Presented? && before[k].record == Effects(before)[i].record;
      assert trace[k] == before[k];
    } else if e.Deleted? {
      PresentedSomewhere(before, e.record);
      var k :| 0 <= k < n && before[k].Presented? && before[k].record == e.record;
      assert trace[k] == before[k];
    }
  }

  /** Between `before` less what was published, and that with the strays: exactly the former without strays. */
  ghost predicate Restored(before: set<string>, after: set<string>, trace: seq<Event>, name: string) {
    && before - ServedAt(EverPresented(trace), name) <= after
    && after <= before - ServedAt(EverPresented(trace), name) + ServedAt(Stray(trace), name)
  }

  lemma {:induction false} StoreRestoredAt(values: set<string>, trace: seq<Event>, name: string)
    requires StoreRestored(RecordsAt(name, values), trace)
    ensures Restored(values, ServedAt(Store(RecordsAt(name, values), trace), name), trace, name)
  {
    var initial := RecordsAt(name, values);
    var after := Store(initial, trace);
    forall v | v in values - ServedAt(EverPresented(trace), name) ensures v in ServedAt(after, name) {
      assert DnsRecord(name, v) in initial - EverPresented(trace);
      assert DnsRecord(name, v) in after;
    }
    forall v | v in ServedAt(after, name)
      ensures v in values - ServedAt(EverPresented(trace), name) + ServedAt(Stray(trace), name)
    {
      var r := DnsRecord(name, v);
      assert r in initial - EverPresented(trace) + Stray(trace);
      if r !in Stray(trace) {
        assert r in initial && v !in ServedAt(EverPresented(trace), name);
      }
    }
  }

  /** What a run must have kept, as `Issue` promises for every run whose deletes succeed. */
  ghost predicate Restores(trace: seq<Event>) {
    Sound(trace) && forall initial :: StoreRestored(initial, trace)
  }

  /** Challenge files after a run: at every name the values from before, less what the run published. */
  lemma {:induction false} HookAfterRun(files: HookProvider.Files, trace: seq<Event>, name: string)
    requires Restores(trace) && HookProvider.CrFree(HookProvider.ValuesAt(files, name))
    ensures Restored(AsSet(HookProvider.ValuesAt(files, name)),
                     AsSet(HookProvider.ValuesAt(HookProvider.Run(files, Effects(trace)), name)), trace, name)
  {
    var values := AsSet(HookProvider.ValuesAt(files, name));
    forall i | 0 <= i < |Effects(trace)| ensures ValidValue(Effects(trace)[i].record.value) {
      EffectsAreOwn(trace, i);
    }
    HookProvider.Refines(files, Effects(trace), name);
    EffectsAreTheStore(RecordsAt(name, values), trace, name);
    ServedRecords(name, values);
    StoreRestoredAt(values, trace, name);
  }

  /** Record sets after a run, for records whose values are not themselves quoted. */
  lemma {:induction false} DeSecAfterRun(domain: string, zone: DeSecProvider.Zone, trace: seq<Event>, name: string)
    requires Restores(trace) && DeSecProvider.NoEmptySets(zone)
    requires ValidFqdn(name) && DeSecProvider.Subname(domain, name).Some?
    requires forall i :: 0 <= i < |trace| && trace[i].Presented? ==> DeSecProvider.Plain(trace[i].record.value)
    ensures Restored(AsSet(DeSecProvider.ValuesAt(domain, zone, name)),
                     AsSet(DeSecProvider.ValuesAt(domain, DeSecProvider.Run(domain, zone, Effects(trace)), name)), trace, name)
  {
    var values := AsSet(DeSecProvider.ValuesAt(domain, zone, name));
    forall i | 0 <= i < |Effects(trace)| ensures DeSecProvider.Usable(Effects(trace)[i]) {
      EffectsAreOwn(trace, i);
    }
    DeSecProvider.Refines(domain, zone, Effects(trace), name);
    EffectsAreTheStore(RecordsAt(name, values), trace, name);
    ServedRecords(name, values);
    StoreRestoredAt(values, trace, name);
  }
}
