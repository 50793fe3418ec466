/**
 A primary server for one zone, after sections 3.1 to 3.4 of RFC 2136 as far as TXT data goes: it reads the zone
 section and every update record with its owner name, checks them, and changes the data at those names. Names
 compare without regard to case.
 */
module Primary {
  import opened Wrappers
  import opened Bytes
  import opened Records
  import opened Names
  import opened Wire
  import opened Update
  import Sequences

  const TYPE_ANY: nat := 255
  const NO_TTL: Text := [0, 0, 0, 0]

  function Folded(name: Text): (r: Text)
    ensures |r| == |name| && forall i :: 0 <= i < |r| ==> r[i] == Lower(name[i])
  {
    seq(|name|, i requires 0 <= i < |name| => Lower(name[i]))
  }

  /** The TXT data of the zone, by folded owner name. */
  type Data = map<Text, seq<Text>>

  function At(data: Data, owner: Text): seq<Text> {
    if owner in data then data[owner] else []
  }

  // ----- reading a request -----

  datatype Entry = Entry(owner: Text, kind: nat, class_: nat, ttl: Text, rdata: Text)

  datatype Request = Request(zone: Text, kind: nat, class_: nat, updates: seq<Entry>)

  function OwnedAt(bytes: Text, at: nat): Result<(Entry, nat), WireError> {
    var owner :- LabelsAt(bytes, at);
    var f :- FieldsAt(bytes, owner.end);
    Ok((Entry(JoinLabels(owner.labels), f.kind, f.class_, f.ttl, f.rdata), f.end))
  }

  function EntriesAt(bytes: Text, at: nat, n: nat): Result<seq<Entry>, WireError>
    decreases n
  {
    if n == 0 then Ok([])
    else
      var first :- OwnedAt(bytes, at);
      var rest :- EntriesAt(bytes, first.1, n - 1);
      Ok([first.0] + rest)
  }

  function ZoneThenEntries(bytes: Text, updates: nat): Result<Request, WireError> {
    var zone :- LabelsAt(bytes, 12);
    var kind :- U16At(bytes, zone.end);
    var class_ :- U16At(bytes, zone.end + 2);
    var entries :- EntriesAt(bytes, zone.end + 4, updates);
    Ok(Request(JoinLabels(zone.labels), kind, class_, entries))
  }

  /** The request in a message; none unless it is an UPDATE of one zone without prerequisites. */
  function RequestOf(bytes: Text): Option<Request> {
    match (U16At(bytes, 2), U16At(bytes, 4), U16At(bytes, 6), U16At(bytes, 8))
    case (Ok(flags), Ok(zones), Ok(prerequisites), Ok(updates)) =>
      if flags != UPDATE_FLAGS || zones != 1 || prerequisites != 0 then None
      else
        (match ZoneThenEntries(bytes, updates)
         case Ok(request) => Some(request)
         case Err(_) => None)
    case _ => None
  }

  // ----- carrying it out -----

  predicate Within(owner: Text, zone: Text) {
    ZoneFor(Folded(zone), Folded(owner)).Some?
  }

  /** ANY, MAILA, MAILB and AXFR name no data. */
  predicate Meta(kind: nat) {
    252 <= kind <= 255
  }

  /** The prescan of section 3.4.1: the owner lies in the zone, and class, type, lifetime and data go together. */
  predicate Allowed(zone: Text, e: Entry) {
    && Within(e.owner, zone)
    && (|| (e.class_ == CLASS_IN && !Meta(e.kind))
        || (e.class_ == CLASS_ANY && e.ttl == NO_TTL && e.rdata == [] && (e.kind == TYPE_ANY || !Meta(e.kind)))
        || (e.class_ == CLASS_NONE && e.ttl == NO_TTL && !Meta(e.kind)))
  }

  /** One update of section 3.4.2. */
  function Updated(data: Data, e: Entry): Data {
    var owner := Folded(e.owner);
    var held := At(data, owner);
    if e.kind != TYPE_TXT && !(e.class_ == CLASS_ANY && e.kind == TYPE_ANY) then data
    else if e.class_ == CLASS_IN then data[owner := if e.rdata in held then held else held + [e.rdata]]
    else if e.class_ == CLASS_ANY then data[owner := []]
    else data[owner := Dropping(held, e.rdata)]
  }

  function UpdatedAll(data: Data, entries: seq<Entry>): Data
    decreases |entries|
  {
    if entries == [] then data else UpdatedAll(Updated(data, entries[0]), entries[1..])
  }

  /** The data after a message; none when the server of `zone` refuses it. */
  function Serve(zone: Text, data: Data, bytes: Text): Option<Data> {
    match RequestOf(bytes)
    case None => None
    case Some(q) =>
      if && Folded(q.zone) == Folded(zone) && q.kind == TYPE_SOA && q.class_ == CLASS_IN
         && forall i :: 0 <= i < |q.updates| ==> Allowed(zone, q.updates[i])
      then Some(UpdatedAll(data, q.updates))
      else None
  }

  // ----- what a carried update asks for -----

  function EntryFor(name: Text, change: Change): Entry {
    Entry(name, TYPE_TXT, ClassOf(change), TtlOf(change), TxtRdata(change.value))
  }

  lemma NameReads(bytes: Text, at: nat, name: Text, rest: Text) returns (found: NameAt)
    requires WireLabels(Split(name, DOT)) && EncodeName(name).Ok? && Reads(bytes, at, EncodeName(name).value, rest)
    ensures LabelsAt(bytes, at) == Ok(found) && JoinLabels(found.labels) == name
    ensures found.end <= |bytes| && bytes[found.end..] == rest
  {
    found := NameAt(Split(name, DOT), at + |EncodeName(name).value|);
    NameRoundTrip(bytes, at, Split(name, DOT), rest);
    JoinSplit(name);
  }

  lemma {:induction false} EntryReads(bytes: Text, at: nat, name: Text, change: Change, rest: Text)
    requires WireLabels(Split(name, DOT)) && EncodeName(name).Ok? && |TxtRdata(change.value)| < 0x1_0000
    requires Reads(bytes, at, EncodeName(name).value, RecordTail(change) + rest)
    ensures EntriesAt(bytes, at, 1) == Ok([EntryFor(name, change)])
  {
    var owner := NameReads(bytes, at, name, RecordTail(change) + rest);
    FieldsReadBack(bytes, owner.end, TYPE_TXT, ClassOf(change), TtlOf(change), TxtRdata(change.value), rest);
    OneEntry(bytes, at);
  }

  lemma {:induction false} OneEntry(bytes: Text, at: nat)
    requires OwnedAt(bytes, at).Ok?
    ensures EntriesAt(bytes, at, 1) == Ok([OwnedAt(bytes, at).value.0])
  {
    var first := OwnedAt(bytes, at).value.0;
    assert EntriesAt(bytes, OwnedAt(bytes, at).value.1, 0) == Ok([]) && [first] + [] == [first];
  }

  lemma ZoneReads(bytes: Text, zone: Text, rest: Text) returns (found: NameAt)
    requires WireLabels(Split(zone, DOT)) && EncodeName(zone).Ok?
    requires Reads(bytes, 12, EncodeName(zone).value, (U16(TYPE_SOA) + U16(CLASS_IN)) + rest)
    ensures LabelsAt(bytes, 12) == Ok(found) && JoinLabels(found.labels) == zone
    ensures U16At(bytes, found.end) == Ok(TYPE_SOA) && U16At(bytes, found.end + 2) == Ok(CLASS_IN)
    ensures found.end + 4 <= |bytes| && bytes[found.end + 4..] == rest
  {
    found := NameReads(bytes, 12, zone, (U16(TYPE_SOA) + U16(CLASS_IN)) + rest);
    Sequences.Regroup(U16(TYPE_SOA), U16(CLASS_IN), rest);
    ReadU16(bytes, found.end, TYPE_SOA, U16(CLASS_IN) + rest);
    ReadU16(bytes, found.end + 2, CLASS_IN, rest);
  }

  /** A message that carries an update reads as exactly that: this zone, and this one change at this name. */
  lemma {:induction false} RequestReadsBack(bytes: Text, zone: Text, name: Text, change: Change)
    requires Carries(bytes, zone, name, change) && |TxtRdata(change.value)| < 0x1_0000
    requires WireLabels(Split(zone, DOT)) && WireLabels(Split(name, DOT))
    ensures U16At(bytes, 2) == Ok(0x2800) && U16At(bytes, 4) == Ok(1) && U16At(bytes, 6) == Ok(0) && U16At(bytes, 8) == Ok(1)
    ensures RequestOf(bytes) == Some(Request(zone, 6, 1, [EntryFor(name, change)]))
    ensures EntryFor(name, change) ==
      if change.Add? then Entry(name, 16, 1, [0, 0, 0, 60], TxtRdata(change.value))
      else Entry(name, 16, 254, [0, 0, 0, 0], TxtRdata(change.value))
  {
    var rest :| Reads(bytes, 12, EncodeName(zone).value,
                      (U16(TYPE_SOA) + U16(CLASS_IN)) + (EncodeName(name).value + (RecordTail(change) + rest)));
    SectionsRead(bytes, zone, name, change, rest);
  }

  lemma {:induction false} SectionsRead(bytes: Text, zone: Text, name: Text, change: Change, rest: Text)
    requires WireLabels(Split(zone, DOT)) && WireLabels(Split(name, DOT)) && |TxtRdata(change.value)| < 0x1_0000
    requires EncodeName(zone).Ok? && EncodeName(name).Ok?
    requires Reads(bytes, 12, EncodeName(zone).value,
                   (U16(TYPE_SOA) + U16(CLASS_IN)) + (EncodeName(name).value + (RecordTail(change) + rest)))
    ensures ZoneThenEntries(bytes, 1) == Ok(Request(zone, TYPE_SOA, CLASS_IN, [EntryFor(name, change)]))
  {
    var found := ZoneReads(bytes, zone, EncodeName(name).value + (RecordTail(change) + rest));
    EntryReads(bytes, found.end + 4, name, change, rest);
    SectionsTogether(bytes, found, 1, [EntryFor(name, change)]);
  }

  lemma {:induction false} SectionsTogether(bytes: Text, zone: NameAt, updates: nat, entries: seq<Entry>)
    requires LabelsAt(bytes, 12) == Ok(zone) && EntriesAt(bytes, zone.end + 4, updates) == Ok(entries)
    requires U16At(bytes, zone.end) == Ok(TYPE_SOA) && U16At(bytes, zone.end + 2) == Ok(CLASS_IN)
    ensures ZoneThenEntries(bytes, updates) == Ok(Request(JoinLabels(zone.labels), TYPE_SOA, CLASS_IN, entries))
  {
  }

  // ----- and what the server does -----

  /** A name inside a zone is inside it without regard to case. */
  lemma FoldedWithin(zone: Text, name: Text)
    requires ZoneFor(zone, name).Some?
    ensures Within(name, zone)
  {
    if name != zone {
      var tail := [DOT] + zone;
      var at := |name| - |tail|;
      assert name[at..] == tail;
      forall i | 0 <= i < |tail| ensures Folded(name)[at + i] == ([DOT] + Folded(zone))[i] {
        assert name[at + i] == tail[i];
      }
      assert Folded(name)[at..] == [DOT] + Folded(zone);
    }
  }

  /** The labels of a zone are labels of the names inside it. */
  lemma {:induction false} ZoneLabels(zone: Text, name: Text)
    requires ZoneFor(zone, name).Some? && WireLabels(Split(name, DOT))
    ensures WireLabels(Split(zone, DOT))
  {
    var k := InsideZone(zone, name);
    var labels := Split(name, DOT);
    assert forall i :: 0 <= i < |labels| - k ==> Split(zone, DOT)[i] == labels[k + i];
  }

  /** Only the data at `owner` may differ. */
  ghost predicate SameElsewhere(data: Data, after: Data, owner: Text) {
    forall other :: other != owner ==> (other in after <==> other in data) && At(after, other) == At(data, other)
  }

  function Wanted(values: set<Text>, change: Change): set<Text> {
    if change.Add? then values + {change.value} else values - {change.value}
  }

  lemma {:induction false} OneUpdate(data: Data, name: Text, change: Change, values: set<Text>)
    requires Serves(At(data, Folded(name)), values)
    ensures var after := UpdatedAll(data, [EntryFor(name, change)]);
      SameElsewhere(data, after, Folded(name)) && Serves(At(after, Folded(name)), Wanted(values, change))
  {
    var e := EntryFor(name, change);
    assert [e][1..] == [] && UpdatedAll(Updated(data, e), []) == Updated(data, e);
    AddServes(At(data, Folded(name)), values, change.value);
    RemoveServes(At(data, Folded(name)), values, change.value);
  }

  /**
   The server of the zone carries the update out: at the record's name the served values S become S + {v} for an
   add and S - {v} for a remove, and no other name changes.
   */
  lemma {:induction false} ServedUpdate(zone: Text, name: Text, change: Change, bytes: Text, data: Data, values: set<Text>)
    requires Carries(bytes, zone, name, change) && |TxtRdata(change.value)| < 0x1_0000
    requires ZoneFor(zone, name).Some? && WireLabels(Split(name, DOT)) && Serves(At(data, Folded(name)), values)
    ensures var after := Serve(zone, data, bytes);
      && after.Some? && SameElsewhere(data, after.value, Folded(name))
      && Serves(At(after.value, Folded(name)), Wanted(values, change))
  {
    ZoneLabels(zone, name);
    RequestReadsBack(bytes, zone, name, change);
    FoldedWithin(zone, name);
    OneUpdate(data, name, change, values);
  }

  /** The server of another zone refuses it. */
  lemma {:induction false} OtherZoneRefuses(zone: Text, other: Text, name: Text, change: Change, bytes: Text, data: Data)
    requires Carries(bytes, zone, name, change) && |TxtRdata(change.value)| < 0x1_0000
    requires ZoneFor(zone, name).Some? && WireLabels(Split(name, DOT)) && Folded(other) != Folded(zone)
    ensures Serve(other, data, bytes).None?
  {
    ZoneLabels(zone, name);
    RequestReadsBack(bytes, zone, name, change);
  }
}
