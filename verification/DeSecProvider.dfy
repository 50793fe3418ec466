/**
 The deSEC provider: one record set per subname, read, changed and put back whole. Entries come back quoted;
 an entry stands for the value inside its quotes.
 */
module DeSecProvider {
  import opened Wrappers
  import opened Records
  import opened ValueStore

  // ----- entries -----

  predicate Quoted(entry: string) {
    |entry| >= 2 && entry[0] == '"' && entry[|entry| - 1] == '"'
  }

  /** The value an entry stands for. */
  function Unquoted(entry: string): string {
    if Quoted(entry) then entry[1..|entry| - 1] else entry
  }

  function Quote(value: string): string {
    "\"" + value + "\""
  }

  /** The test for a value among the entries: with its quotes or without, the entry spells it. */
  predicate IsValue(entry: string, value: string) {
    entry == value || (Quoted(entry) && entry[1..|entry| - 1] == value)
  }

  /** A value that does not look like a quoted entry itself. */
  predicate Plain(value: string) {
    !Quoted(value)
  }

  /** An entry that stands for another value is, letter for letter, this value. */
  ghost predicate Clashes(entries: seq<string>, value: string) {
    Quoted(value) && value in entries
  }

  /** Without such an entry there is one way to read the entries. */
  lemma IsValueMeaning(entries: seq<string>, value: string, i: nat)
    requires !Clashes(entries, value) && i < |entries|
    ensures IsValue(entries[i], value) <==> Unquoted(entries[i]) == value
    ensures Unquoted(Quote(value)) == value
  {
    assert Quote(value)[1..|Quote(value)| - 1] == value;
    assert entries[i] in entries;
  }

  function Unquotes(entries: seq<string>): (r: seq<string>)
    ensures |r| == |entries| && forall i :: 0 <= i < |r| ==> r[i] == Unquoted(entries[i])
  {
    seq(|entries|, i requires 0 <= i < |entries| => Unquoted(entries[i]))
  }

  // ----- names in the zone -----

  predicate EndsIn(s: string, suffix: string) {
    |s| >= |suffix| && s[|s| - |suffix|..] == suffix
  }

  /** What is left of a name in front of the zone, or "@" when nothing is. */
  function Subname(domain: string, fqdn: string): Option<string> {
    if fqdn == domain then Some("@")
    else if EndsIn(fqdn, "." + domain) then Some(fqdn[..|fqdn| - |domain| - 1])
    else None
  }

  /** Different names of the zone have different subnames. */
  lemma SubnameIsInjective(domain: string, a: string, b: string)
    requires ValidFqdn(a) && ValidFqdn(b)
    requires Subname(domain, a).Some? && Subname(domain, a) == Subname(domain, b)
    ensures a == b
  {
    if a != domain && b != domain {
      assert a == Subname(domain, a).value + ("." + domain);
      assert b == Subname(domain, b).value + ("." + domain);
    } else if a != domain {
      NotTheZone(domain, a);
    } else if b != domain {
      NotTheZone(domain, b);
    }
  }

  lemma NotTheZone(domain: string, name: string)
    requires ValidFqdn(name) && name != domain && Subname(domain, name).Some?
    ensures Subname(domain, name).value != "@"
  {
    var s := Subname(domain, name).value;
    assert NameChar(name[0]);
    if s != [] {
      assert s[0] == name[0];
    }
  }

  // ----- the store -----

  type Zone = map<string, seq<string>>

  function EntriesAt(zone: Zone, subname: string): seq<string> {
    if subname in zone then zone[subname] else []
  }

  predicate Holds(entries: seq<string>, value: string) {
    exists i :: 0 <= i < |entries| && IsValue(entries[i], value)
  }

  /** The entries that are not `value`, in order. */
  function Others(entries: seq<string>, value: string): seq<string> {
    if entries == [] then []
    else if IsValue(entries[0], value) then Others(entries[1..], value)
    else [entries[0]] + Others(entries[1..], value)
  }

  function WithEntry(entries: seq<string>, value: string): seq<string> {
    if Holds(entries, value) then entries else entries + [Quote(value)]
  }

  function PresentIn(zone: Zone, subname: string, value: string): Zone {
    zone[subname := WithEntry(EntriesAt(zone, subname), value)]
  }

  function DeleteFrom(zone: Zone, subname: string, value: string): Zone {
    var entries := EntriesAt(zone, subname);
    var kept := Others(entries, value);
    if |kept| == |entries| then zone
    else if kept == [] then zone - {subname}
    else zone[subname := kept]
  }

  /** Every record set holds at least one entry. */
  ghost predicate NoEmptySets(zone: Zone) {
    forall s :: s in zone ==> zone[s] != []
  }

  lemma {:induction false} OthersMeaning(entries: seq<string>, value: string)
    requires !Clashes(entries, value)
    ensures Unquotes(Others(entries, value)) == Without(Unquotes(entries), value)
  {
    if entries != [] {
      IsValueMeaning(entries, value, 0);
      OthersMeaning(entries[1..], value);
      UnquotesOfFirst(entries[0], entries[1..]);
      assert entries == [entries[0]] + entries[1..];
      if !IsValue(entries[0], value) {
        UnquotesOfFirst(entries[0], Others(entries[1..], value));
      }
    }
  }

  lemma {:induction false} WithEntryMeaning(entries: seq<string>, value: string)
    requires !Clashes(entries, value)
    ensures Unquotes(WithEntry(entries, value)) == With(Unquotes(entries), value)
  {
    assert Quote(value)[1..|Quote(value)| - 1] == value;
    assert Unquotes(entries + [Quote(value)]) == Unquotes(entries) + [value];
  }

  lemma {:induction false} UnquotesOfFirst(first: string, rest: seq<string>)
    ensures Unquotes([first] + rest) == [Unquoted(first)] + Unquotes(rest)
  {
  }

  /** `present` adds its value once, and touches no other subname. */
  lemma {:induction false} PresentMeaning(zone: Zone, subname: string, value: string, at: string)
    requires !Clashes(EntriesAt(zone, subname), value)
    ensures Unquotes(EntriesAt(PresentIn(zone, subname, value), at))
         == if at == subname then With(Unquotes(EntriesAt(zone, at)), value) else Unquotes(EntriesAt(zone, at))
    ensures NoEmptySets(zone) ==> NoEmptySets(PresentIn(zone, subname, value))
  {
    var entries := EntriesAt(zone, subname);
    WithEntryMeaning(entries, value);
    assert WithEntry(entries, value) != [];
  }

  /** `delete` removes its own value and keeps the others in order; the last one takes the record set with it. */
  lemma {:induction false} DeleteMeaning(zone: Zone, subname: string, value: string, at: string)
    requires !Clashes(EntriesAt(zone, subname), value)
    ensures Unquotes(EntriesAt(DeleteFrom(zone, subname, value), at))
         == if at == subname then Without(Unquotes(EntriesAt(zone, at)), value) else Unquotes(EntriesAt(zone, at))
    ensures NoEmptySets(zone) ==> NoEmptySets(DeleteFrom(zone, subname, value))
  {
    OthersMeaning(EntriesAt(zone, subname), value);
  }

  // ----- which values are safe -----

  ghost predicate PresentsRight(entries: seq<string>, value: string) {
    AsSet(Unquotes(WithEntry(entries, value))) == AsSet(Unquotes(entries)) + {value}
  }

  ghost predicate DeletesRight(entries: seq<string>, value: string) {
    AsSet(Unquotes(Others(entries, value))) == AsSet(Unquotes(entries)) - {value}
  }

  /** With a clashing entry, `present` is right exactly when the value happens to be there already. */
  lemma {:induction false} PresentIff(entries: seq<string>, value: string)
    ensures PresentsRight(entries, value) <==> !Clashes(entries, value) || value in Unquotes(entries)
  {
    if !Clashes(entries, value) {
      WithEntryMeaning(entries, value);
      assert AsSet(With(Unquotes(entries), value)) == AsSet(Unquotes(entries)) + {value};
    } else {
      var i :| 0 <= i < |entries| && entries[i] == value;
      assert IsValue(entries[i], value) && WithEntry(entries, value) == entries;
      assert value in AsSet(Unquotes(entries)) <==> value in Unquotes(entries);
    }
  }

  /** A quoted value and the value inside it: an entry for the one is taken for the other. */
  lemma {:induction false} QuotesClash(value: string)
    requires Quoted(value)
    ensures !PresentsRight([value], value) && !DeletesRight([value], value)
  {
    var inside := Unquoted(value);
    PresentIff([value], value);
    assert Unquotes([value]) == [inside] && |inside| < |value|;
    assert IsValue([value][0], value) && Others([value][1..], value) == [] && Others([value], value) == [];
    assert inside in AsSet(Unquotes([value])) - {value} && inside !in AsSet(Unquotes([]));
  }

  /** On every record set `present` and `delete` do what they should, if and only if the value is not itself quoted. */
  lemma {:induction false} PlainIff(value: string)
    ensures Plain(value) <==> forall entries :: PresentsRight(entries, value) && DeletesRight(entries, value)
  {
    if Plain(value) {
      forall entries ensures PresentsRight(entries, value) && DeletesRight(entries, value) {
        PresentIff(entries, value);
        OthersMeaning(entries, value);
        assert AsSet(Without(Unquotes(entries), value)) == AsSet(Unquotes(entries)) - {value};
      }
    } else {
      QuotesClash(value);
    }
  }

  // ----- whole runs -----

  /** One operation on a record of the zone; a record outside it is refused. */
  function Step(domain: string, zone: Zone, op: Op): Zone {
    match Subname(domain, op.record.fqdn)
    case None => zone
    case Some(s) => if op.Present? then PresentIn(zone, s, op.record.value) else DeleteFrom(zone, s, op.record.value)
  }

  function Run(domain: string, zone: Zone, ops: seq<Op>): Zone {
    if ops == [] then zone else Step(domain, Run(domain, zone, ops[..|ops| - 1]), ops[|ops| - 1])
  }

  /** The values served at a name of the zone. */
  function ValuesAt(domain: string, zone: Zone, name: string): seq<string>
    requires Subname(domain, name).Some?
  {
    Unquotes(EntriesAt(zone, Subname(domain, name).value))
  }

  ghost predicate Usable(op: Op) {
    ValidFqdn(op.record.fqdn) && Plain(op.record.value)
  }

  lemma OneStep(domain: string, zone: Zone, op: Op, name: string)
    requires NoEmptySets(zone) && Usable(op) && ValidFqdn(name) && Subname(domain, name).Some?
    ensures NoEmptySets(Step(domain, zone, op))
    ensures AsSet(ValuesAt(domain, Step(domain, zone, op), name)) == AbstractStep(AsSet(ValuesAt(domain, zone, name)), op, name)
    ensures NoDuplicates(ValuesAt(domain, zone, name)) ==> NoDuplicates(ValuesAt(domain, Step(domain, zone, op), name))
  {
    var at, s := Subname(domain, name).value, Subname(domain, op.record.fqdn);
    if s.Some? {
      if s.value == at {
        SubnameIsInjective(domain, op.record.fqdn, name);
      }
      StepAt(zone, s.value, op, at);
      StepValues(ValuesAt(domain, zone, name), op);
    }
  }

  /** The entries at one subname after an operation on another or the same. */
  lemma StepAt(zone: Zone, subname: string, op: Op, at: string)
    requires NoEmptySets(zone) && Plain(op.record.value)
    ensures var after := if op.Present? then PresentIn(zone, subname, op.record.value) else DeleteFrom(zone, subname, op.record.value);
      var values := Unquotes(EntriesAt(zone, at));
      && NoEmptySets(after)
      && Unquotes(EntriesAt(after, at)) == if at == subname then ChangedValues(values, op) else values
  {
    if op.Present? {
      PresentMeaning(zone, subname, op.record.value, at);
    } else {
      DeleteMeaning(zone, subname, op.record.value, at);
    }
  }

  /** Over any interleaving the provider is the abstract store, and a name with no value has no record set. */
  lemma {:induction false} Refines(domain: string, zone: Zone, ops: seq<Op>, name: string)
    requires NoEmptySets(zone) && ValidFqdn(name) && Subname(domain, name).Some?
    requires forall i :: 0 <= i < |ops| ==> Usable(ops[i])
    ensures NoEmptySets(Run(domain, zone, ops))
    ensures AsSet(ValuesAt(domain, Run(domain, zone, ops), name)) == AbstractRun(AsSet(ValuesAt(domain, zone, name)), ops, name)
    ensures Subname(domain, name).value in Run(domain, zone, ops) <==> AbstractRun(AsSet(ValuesAt(domain, zone, name)), ops, name) != {}
    ensures NoDuplicates(ValuesAt(domain, zone, name)) ==> NoDuplicates(ValuesAt(domain, Run(domain, zone, ops), name))
  {
    if ops != [] {
      Refines(domain, zone, ops[..|ops| - 1], name);
      OneStep(domain, Run(domain, zone, ops[..|ops| - 1]), ops[|ops| - 1], name);
    }
    NonEmptyIffIn(domain, Run(domain, zone, ops), name);
  }

  lemma NonEmptyIffIn(domain: string, zone: Zone, name: string)
    requires NoEmptySets(zone) && Subname(domain, name).Some?
    ensures Subname(domain, name).value in zone <==> AsSet(ValuesAt(domain, zone, name)) != {}
  {
    var values := ValuesAt(domain, zone, name);
    if Subname(domain, name).value in zone {
      assert values[0] in AsSet(values);
    }
  }

  // ----- the provider -----

  class Provider {
    const domain: string
    var zone: Zone

    constructor (domain: string)
      ensures this.domain == domain && zone == map[]
    {
      this.domain := domain;
      zone := map[];
    }

    /** `readOk` and `writeOk` say whether the requests succeed; a failed request changes nothing. */
    method Present(record: DnsRecord, readOk: bool, writeOk: bool) returns (r: Result<(), AcmeError>)
      modifies this`zone
      ensures r.Ok? <==> Subname(domain, record.fqdn).Some? && readOk && writeOk
      ensures zone == if r.Ok? then Step(domain, old(zone), Op.Present(record)) else old(zone)
    {
      var subname := Subname(domain, record.fqdn);
      if subname.None? {
        return Err(Config("outside zone"));
      }
      if !readOk {
        return Err(Config("read failed"));
      }
      var entries := EntriesAt(zone, subname.value);
      var found := FindValue(entries, record.value);
      if !found {
        entries := entries + [Quote(record.value)];
      }
      if !writeOk {
        return Err(Config("write failed"));
      }
      zone := zone[subname.value := entries];
      return Ok(());
    }

    method Delete(record: DnsRecord, readOk: bool, writeOk: bool) returns (r: Result<(), AcmeError>)
      modifies this`zone
      ensures r.Ok? ==> zone == Step(domain, old(zone), Op.Delete(record))
      ensures r.Err? ==> zone == old(zone)
      ensures Subname(domain, record.fqdn).Some? && readOk && writeOk ==> r.Ok?
    {
      var subname := Subname(domain, record.fqdn);
      if subname.None? {
        return Err(Config("outside zone"));
      }
      if !readOk {
        return Err(Config("read failed"));
      }
      var entries := EntriesAt(zone, subname.value);
      var kept := Others(entries, record.value);
      if |kept| == |entries| {
        return Ok(());
      }
      if !writeOk {
        return Err(Config("write failed"));
      }
      if kept != [] {
        zone := zone[subname.value := kept];
      } else {
        zone := zone - {subname.value};
      }
      return Ok(());
    }
  }

  /** Whether some entry is `value`. */
  method FindValue(entries: seq<string>, value: string) returns (found: bool)
    ensures found == Holds(entries, value)
  {
    found := false;
    for i := 0 to |entries|
      invariant !found && forall j :: 0 <= j < i ==> !IsValue(entries[j], value)
    {
      if IsValue(entries[i], value) {
        return true;
      }
    }
  }
}
