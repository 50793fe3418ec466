/**
 Dynamic UPDATE messages (RFC 2136): building one that adds or removes a single TXT value, and the meaning a
 primary server gives it. The meaning is read off the bytes alone, so that builder and server agree on them.
 */
module Update {
  import opened Wrappers
  import opened Sequences
  import opened Bytes
  import opened Records
  import opened Names
  import opened Wire

  const TYPE_SOA: nat := 6
  const TYPE_TXT: nat := 16
  const CLASS_IN: nat := 1
  const CLASS_NONE: nat := 254
  const CLASS_ANY: nat := 255

  // ----- TXT data -----

  /** The value as strings of at most 255 bytes, each behind its length. */
  function TxtRdata(value: Text): Text {
    if value == [] then []
    else
      var n := if |value| < 255 then |value| else 255;
      [n] + value[..n] + TxtRdata(value[n..])
  }

  /** The strings for the first `at` bytes are built. */
  ghost predicate BuiltTo(value: Text, rdata: Text, at: nat) {
    at <= |value| && rdata + TxtRdata(value[at..]) == TxtRdata(value)
  }

  lemma BuiltMore(value: Text, rdata: Text, at: nat, n: nat)
    requires BuiltTo(value, rdata, at) && at < |value| && n == (if |value| - at < 255 then |value| - at else 255)
    ensures BuiltTo(value, rdata + ([n] + value[at..at + n]), at + n)
  {
    var rest := value[at..];
    assert rest[..n] == value[at..at + n] && rest[n..] == value[at + n..];
    Regroup(rdata, [n] + value[at..at + n], TxtRdata(value[at + n..]));
  }

  /** Builds the strings one chunk at a time. */
  method BuildTxtRdata(value: Text) returns (rdata: Text)
    ensures rdata == TxtRdata(value)
  {
    rdata := [];
    var at := 0;
    assert value[0..] == value;
    while at < |value|
      invariant BuiltTo(value, rdata, at)
    {
      var n := if |value| - at < 255 then |value| - at else 255;
      BuiltMore(value, rdata, at, n);
      rdata := rdata + ([n] + value[at..at + n]);
      at := at + n;
    }
    assert value[at..] == [];
  }

  /** The strings of TXT data, put back together. */
  function TxtValue(rdata: Text): Option<Text> {
    if rdata == [] then Some([])
    else if 1 + rdata[0] > |rdata| then None
    else
      match TxtValue(rdata[1 + rdata[0]..])
      case None => None
      case Some(rest) => Some(rdata[1..1 + rdata[0]] + rest)
  }

  lemma {:induction false} TxtRoundTrip(value: Text)
    ensures TxtValue(TxtRdata(value)) == Some(value)
    decreases |value|
  {
    if value != [] {
      var n: int := if |value| < 255 then |value| else 255;
      var rdata := TxtRdata(value);
      TxtRoundTrip(value[n..]);
      assert rdata[0] == n && rdata[1..1 + n] == value[..n] && rdata[1 + n..] == TxtRdata(value[n..]);
      assert value == value[..n] + value[n..];
    }
  }

  /** Different values have different data. */
  lemma {:induction false} TxtRdataIsInjective(a: Text, b: Text)
    requires TxtRdata(a) == TxtRdata(b)
    ensures a == b
  {
    TxtRoundTrip(a);
    TxtRoundTrip(b);
  }

  // ----- building -----

  datatype Change = Add(value: Text) | Remove(value: Text)

  function ClassOf(change: Change): nat {
    if change.Add? then CLASS_IN else CLASS_NONE
  }

  function TtlOf(change: Change): Text {
    if change.Add? then [0, 0, 0, 60] else [0, 0, 0, 0]
  }

  /** A resource record after its owner name. */
  function RecordFields(kind: nat, class_: nat, ttl: Text, rdata: Text): Text {
    U16(kind) + (U16(class_) + (ttl + (U16(|rdata|) + rdata)))
  }

  function RecordTail(change: Change): Text {
    RecordFields(TYPE_TXT, ClassOf(change), TtlOf(change), TxtRdata(change.value))
  }

  /** The second header word of a request with opcode UPDATE. */
  const UPDATE_FLAGS: nat := 0x2800

  /** Id 0, opcode UPDATE, then the counts: one zone, no prerequisite, one update, nothing additional. */
  function Header(): Text {
    [0, 0, 0x28, 0] + (U16(1) + (U16(0) + (U16(1) + U16(0))))
  }

  /** The message for one change; an error when a label or the value is too long for its length field. */
  function UpdateMessage(zone: Text, name: Text, change: Change): Result<Text, WireError> {
    var _ :- Len16(|TxtRdata(change.value)|);
    var z :- EncodeName(zone);
    var n :- EncodeName(name);
    Ok(Header() + (z + (U16(TYPE_SOA) + (U16(CLASS_IN) + (n + RecordTail(change))))))
  }

  predicate EndsIn(s: Text, suffix: Text) {
    |s| >= |suffix| && s[|s| - |suffix|..] == suffix
  }

  /** The zone, once the record is known to live inside it. */
  function ZoneFor(zone: Text, fqdn: Text): Option<Text> {
    if fqdn == zone || EndsIn(fqdn, [DOT] + zone) then Some(zone) else None
  }

  lemma {:induction false} SplitJoined(a: Text, b: Text)
    ensures Split(a + [DOT] + b, DOT) == Split(a, DOT) + Split(b, DOT)
  {
    var whole := a + [DOT] + b;
    if a == [] {
      assert whole[1..] == b;
    } else {
      assert whole[0] == a[0] && whole[1..] == a[1..] + [DOT] + b;
      SplitJoined(a[1..], b);
    }
  }

  lemma {:induction false} JoinAppended(a: seq<Text>, b: seq<Text>)
    requires a != [] && b != []
    ensures JoinLabels(a + b) == JoinLabels(a) + [DOT] + JoinLabels(b)
    decreases |a|
  {
    assert (a + b)[0] == a[0] && (a + b)[1..] == a[1..] + b;
    if |a| > 1 {
      JoinAppended(a[1..], b);
    } else {
      assert a[1..] + b == b;
    }
  }

  /** The last labels of `fqdn`, from label `k` on, are those of `zone`. */
  ghost predicate LabelsEndIn(fqdn: Text, zone: Text, k: nat) {
    k <= |Split(fqdn, DOT)| && Split(fqdn, DOT)[k..] == Split(zone, DOT)
  }

  lemma {:induction false} InsideZone(zone: Text, fqdn: Text) returns (k: nat)
    requires ZoneFor(zone, fqdn).Some?
    ensures LabelsEndIn(fqdn, zone, k)
  {
    if fqdn == zone {
      k := 0;
    } else {
      var a := fqdn[..|fqdn| - |zone| - 1];
      assert fqdn == a + [DOT] + zone;
      SplitJoined(a, zone);
      k := |Split(a, DOT)|;
    }
  }

  lemma {:induction false} EndsInZone(zone: Text, fqdn: Text, k: nat)
    requires LabelsEndIn(fqdn, zone, k)
    ensures ZoneFor(zone, fqdn).Some?
  {
    var labels := Split(fqdn, DOT);
    JoinSplit(fqdn);
    JoinSplit(zone);
    if k > 0 {
      var head := JoinLabels(labels[..k]);
      JoinAppended(labels[..k], labels[k..]);
      assert labels[..k] + labels[k..] == labels;
    }
  }

  /** A record is accepted exactly when the labels of its name end in those of the zone. */
  lemma {:induction false} ZoneForMeaning(zone: Text, fqdn: Text)
    ensures ZoneFor(zone, fqdn).Some? <==> exists k: nat :: LabelsEndIn(fqdn, zone, k)
  {
    if ZoneFor(zone, fqdn).Some? {
      var k := InsideZone(zone, fqdn);
    } else if k: nat :| LabelsEndIn(fqdn, zone, k) {
      EndsInZone(zone, fqdn, k);
    }
  }

  // ----- what a primary server makes of it -----

  /** The offset after an uncompressed name. */
  function PlainNameEnd(bytes: Text, at: nat): Result<nat, WireError>
    decreases |bytes| - at
  {
    if at >= |bytes| then Err(Truncated)
    else if bytes[at] == 0 then Ok(at + 1)
    else if at + 1 + bytes[at] > |bytes| then Err(Truncated)
    else PlainNameEnd(bytes, at + 1 + bytes[at])
  }

  datatype UpdateRecord = UpdateRecord(kind: nat, class_: nat, ttl: Text, rdata: Text, end: nat)

  function UpdateRecordAt(bytes: Text, at: nat): Result<UpdateRecord, WireError> {
    var name :- PlainNameEnd(bytes, at);
    FieldsAt(bytes, name)
  }

  function FieldsAt(bytes: Text, name: nat): Result<UpdateRecord, WireError> {
    var kind :- U16At(bytes, name);
    var class_ :- U16At(bytes, name + 2);
    var ttl :- Slice(bytes, name + 4, 4);
    var rdlen :- U16At(bytes, name + 8);
    var rdata :- Slice(bytes, name + 10, rdlen);
    Ok(UpdateRecord(kind, class_, ttl, rdata, name + 10 + rdlen))
  }

  function Dropping(zone: seq<Text>, rdata: Text): (r: seq<Text>)
    ensures forall x :: x in r <==> x in zone && x != rdata
  {
    if zone == [] then []
    else
      assert zone == [zone[0]] + zone[1..];
      if zone[0] == rdata then Dropping(zone[1..], rdata) else [zone[0]] + Dropping(zone[1..], rdata)
  }

  /** One record's effect on the data at a name that is not looked at. */
  function Changed(zone: seq<Text>, u: UpdateRecord): Option<seq<Text>> {
    if u.kind != TYPE_TXT then Some(zone)
    else if u.class_ == CLASS_IN then Some(if u.rdata in zone then zone else zone + [u.rdata])
    else if u.class_ == CLASS_ANY then Some([])
    else if u.class_ == CLASS_NONE then Some(Dropping(zone, u.rdata))
    else None
  }

  function SkipZones(bytes: Text, at: nat, n: nat): Result<nat, WireError>
    decreases n
  {
    if n == 0 then Ok(at)
    else
      var name :- PlainNameEnd(bytes, at);
      var _ :- Slice(bytes, name, 4);
      SkipZones(bytes, name + 4, n - 1)
  }

  function ApplyRecords(bytes: Text, at: nat, n: nat, zone: seq<Text>): Option<seq<Text>>
    decreases n
  {
    if n == 0 then Some(zone)
    else
      match UpdateRecordAt(bytes, at)
      case Err(_) => None
      case Ok(u) =>
        match Changed(zone, u)
        case None => None
        case Some(after) => ApplyRecords(bytes, u.end, n - 1, after)
  }

  /** The zone's TXT data after the update; none when the message is not understood. */
  function ApplyUpdate(bytes: Text, zone: seq<Text>): Option<seq<Text>> {
    match (U16At(bytes, 4), U16At(bytes, 6), U16At(bytes, 8), Slice(bytes, 10, 2))
    case (Ok(zones), Ok(prerequisites), Ok(updates), Ok(_)) =>
      if prerequisites != 0 then None
      else
        (match SkipZones(bytes, 12, zones)
         case Err(_) => None
         case Ok(at) => ApplyRecords(bytes, at, updates, zone))
    case _ => None
  }

  // ----- they agree -----

  /** Labels that the server's name reader takes as labels. */
  ghost predicate PlainName(name: Text) {
    var labels := Split(name, DOT);
    forall i :: 0 <= i < |labels| ==> 0 < |labels[i]| <= 255
  }

  lemma {:induction false} PlainNameRoundTrip(bytes: Text, at: nat, labels: seq<Text>, rest: Text)
    requires LabelsFit(labels, 255) && (forall i :: 0 <= i < |labels| ==> 0 < |labels[i]|)
    requires Reads(bytes, at, EncodeLabels(labels), rest)
    ensures var end := at + |EncodeLabels(labels)|;
      end <= |bytes| && bytes[end..] == rest && PlainNameEnd(bytes, at) == Ok(end)
    decreases |labels|
  {
    ReadChunk(bytes, at, EncodeLabels(labels), rest);
    assert bytes[at] == bytes[at..][0];
    if labels != [] {
      LabelThenMore(bytes, at, labels[0], EncodeLabels(labels[1..]), rest);
      PlainNameRoundTrip(bytes, at + 1 + |labels[0]|, labels[1..], rest);
    }
  }

  lemma NameReadsBack(bytes: Text, at: nat, name: Text, rest: Text) returns (end: nat)
    requires PlainName(name) && EncodeName(name).Ok? && Reads(bytes, at, EncodeName(name).value, rest)
    ensures PlainNameEnd(bytes, at) == Ok(end) && end <= |bytes| && bytes[end..] == rest
  {
    end := at + |EncodeName(name).value|;
    PlainNameRoundTrip(bytes, at, Split(name, DOT), rest);
  }

  /** The update record reads back, whatever follows it. */
  lemma RecordReadsBack(bytes: Text, at: nat, name: Text, change: Change, rest: Text)
    requires PlainName(name) && EncodeName(name).Ok? && |TxtRdata(change.value)| < 0x1_0000
    requires Reads(bytes, at, EncodeName(name).value, RecordTail(change) + rest)
    ensures UpdateRecordAt(bytes, at).Ok?
    ensures var u := UpdateRecordAt(bytes, at).value;
      u.kind == TYPE_TXT && u.class_ == ClassOf(change) && u.rdata == TxtRdata(change.value)
  {
    var p := NameReadsBack(bytes, at, name, RecordTail(change) + rest);
    FieldsReadBack(bytes, p, TYPE_TXT, ClassOf(change), TtlOf(change), TxtRdata(change.value), rest);
  }

  lemma FieldsReadBack(bytes: Text, p: nat, kind: nat, class_: nat, ttl: Text, rdata: Text, rest: Text)
    requires kind < 0x1_0000 && class_ < 0x1_0000 && |ttl| == 4 && |rdata| < 0x1_0000
    requires Reads(bytes, p, RecordFields(kind, class_, ttl, rdata), rest)
    ensures FieldsAt(bytes, p) == Ok(UpdateRecord(kind, class_, ttl, rdata, p + 10 + |rdata|))
  {
    Regroup5(U16(kind), U16(class_), ttl, U16(|rdata|), rdata, rest);
    FixedFieldsRead(bytes, p, kind, class_, ttl, U16(|rdata|) + (rdata + rest));
    SizedFieldReads(bytes, p + 8, rdata, rest);
  }

  /** Type, class and lifetime. */
  lemma FixedFieldsRead(bytes: Text, p: nat, kind: nat, class_: nat, ttl: Text, rest: Text)
    requires kind < 0x1_0000 && class_ < 0x1_0000 && |ttl| == 4
    requires Reads(bytes, p, U16(kind), U16(class_) + (ttl + rest))
    ensures U16At(bytes, p) == Ok(kind) && U16At(bytes, p + 2) == Ok(class_) && Slice(bytes, p + 4, 4) == Ok(ttl)
    ensures p + 8 <= |bytes| && bytes[p + 8..] == rest
  {
    ReadU16(bytes, p, kind, U16(class_) + (ttl + rest));
    ReadU16(bytes, p + 2, class_, ttl + rest);
    ReadChunk(bytes, p + 4, ttl, rest);
  }

  /** A length and that many bytes. */
  lemma SizedFieldReads(bytes: Text, p: nat, data: Text, rest: Text)
    requires |data| < 0x1_0000 && Reads(bytes, p, U16(|data|), data + rest)
    ensures U16At(bytes, p) == Ok(|data|) && Slice(bytes, p + 2, |data|) == Ok(data)
  {
    ReadU16(bytes, p, |data|, data + rest);
    ReadChunk(bytes, p + 2, data, rest);
  }

  lemma Regroup5(a: Text, b: Text, c: Text, d: Text, e: Text, f: Text)
    ensures (a + (b + (c + (d + e)))) + f == a + (b + (c + (d + (e + f))))
  {
    Regroup(d, e, f);
    Regroup(c, d + e, f);
    Regroup(b, c + (d + e), f);
    Regroup(a, b + (c + (d + e)), f);
  }

  /**
   A message that carries this update: any id, opcode UPDATE, the counts 1, 0 and 1, any additional count, and
   anything after the update record, such as a signature.
   */
  ghost predicate Carries(bytes: Text, zone: Text, name: Text, change: Change) {
    && EncodeName(zone).Ok? && EncodeName(name).Ok? && |bytes| >= 12
    && U16At(bytes, 2) == Ok(UPDATE_FLAGS)
    && U16At(bytes, 4) == Ok(1) && U16At(bytes, 6) == Ok(0) && U16At(bytes, 8) == Ok(1)
    && exists rest :: Reads(bytes, 12, EncodeName(zone).value,
                            (U16(TYPE_SOA) + U16(CLASS_IN)) + (EncodeName(name).value + (RecordTail(change) + rest)))
  }

  lemma {:induction false} ZoneReadsBack(bytes: Text, zone: Text, rest: Text)
    requires PlainName(zone) && EncodeName(zone).Ok? && Reads(bytes, 12, EncodeName(zone).value, U16(TYPE_SOA) + U16(CLASS_IN) + rest)
    ensures var at := 12 + |EncodeName(zone).value| + 4;
      SkipZones(bytes, 12, 1) == Ok(at) && at <= |bytes| && bytes[at..] == rest
  {
    PlainNameRoundTrip(bytes, 12, Split(zone, DOT), U16(TYPE_SOA) + U16(CLASS_IN) + rest);
    var end := 12 + |EncodeName(zone).value|;
    ReadChunk(bytes, end, U16(TYPE_SOA) + U16(CLASS_IN), rest);
    assert SkipZones(bytes, end + 4, 0) == Ok(end + 4);
  }

  /** A message that carries an update changes the TXT data by exactly that one value. */
  lemma {:induction false} CarriedUpdateMeans(bytes: Text, zoneName: Text, name: Text, change: Change, zone: seq<Text>)
    requires Carries(bytes, zoneName, name, change) && PlainName(zoneName) && PlainName(name)
    requires |TxtRdata(change.value)| < 0x1_0000
    ensures ApplyUpdate(bytes, zone) == Some(
      var rdata := TxtRdata(change.value);
      if change.Remove? then Dropping(zone, rdata) else if rdata in zone then zone else zone + [rdata])
  {
    var rest :| Reads(bytes, 12, EncodeName(zoneName).value,
                      (U16(TYPE_SOA) + U16(CLASS_IN)) + (EncodeName(name).value + (RecordTail(change) + rest)));
    var at := SectionsReadBack(bytes, zoneName, name, change, rest);
  }

  lemma {:induction false} SectionsReadBack(bytes: Text, zone: Text, name: Text, change: Change, rest: Text) returns (at: nat)
    requires PlainName(zone) && PlainName(name) && |TxtRdata(change.value)| < 0x1_0000
    requires EncodeName(zone).Ok? && EncodeName(name).Ok?
    requires Reads(bytes, 12, EncodeName(zone).value,
                   (U16(TYPE_SOA) + U16(CLASS_IN)) + (EncodeName(name).value + (RecordTail(change) + rest)))
    ensures SkipZones(bytes, 12, 1) == Ok(at) && UpdateRecordAt(bytes, at).Ok?
    ensures var u := UpdateRecordAt(bytes, at).value;
      u.kind == TYPE_TXT && u.class_ == ClassOf(change) && u.rdata == TxtRdata(change.value)
  {
    at := 12 + |EncodeName(zone).value| + 4;
    ZoneReadsBack(bytes, zone, EncodeName(name).value + (RecordTail(change) + rest));
    RecordReadsBack(bytes, at, name, change, rest);
  }

  /** What `UpdateMessage` builds carries the update. */
  lemma MessageCarries(zone: Text, name: Text, change: Change, tail: Text)
    requires UpdateMessage(zone, name, change).Ok?
    ensures Carries(UpdateMessage(zone, name, change).value + tail, zone, name, change)
  {
    var z, n, r := EncodeName(zone).value, EncodeName(name).value, RecordTail(change);
    var body := z + (U16(TYPE_SOA) + (U16(CLASS_IN) + (n + r)));
    var bytes := Header() + body + tail;
    HeaderReads(bytes, body + tail);
    Regroup5(z, U16(TYPE_SOA), U16(CLASS_IN), n, r, tail);
    Regroup(U16(TYPE_SOA), U16(CLASS_IN), n + (r + tail));
    assert Reads(bytes, 12, z, (U16(TYPE_SOA) + U16(CLASS_IN)) + (n + (r + tail)));
  }

  lemma FlagsRead(bytes: Text, rest: Text)
    requires bytes == [0, 0, 0x28, 0] + rest
    ensures U16At(bytes, 2) == Ok(UPDATE_FLAGS)
  {
    assert BigEndian(0x28, 1) == [0x28] && U16(UPDATE_FLAGS) == [0x28, 0];
    assert bytes[2..] == U16(UPDATE_FLAGS) + rest;
    ReadU16(bytes, 2, UPDATE_FLAGS, rest);
  }

  lemma HeaderReads(bytes: Text, rest: Text)
    requires bytes == Header() + rest
    ensures |bytes| >= 12 && bytes[12..] == rest && U16At(bytes, 2) == Ok(UPDATE_FLAGS)
    ensures U16At(bytes, 4) == Ok(1) && U16At(bytes, 6) == Ok(0) && U16At(bytes, 8) == Ok(1)
  {
    FlagsRead(bytes, U16(1) + (U16(0) + (U16(1) + U16(0))) + rest);
    Regroup5([0, 0, 0x28, 0], U16(1), U16(0), U16(1), U16(0), rest);
    ReadChunk(bytes, 0, [0, 0, 0x28, 0], U16(1) + (U16(0) + (U16(1) + (U16(0) + rest))));
    ReadU16(bytes, 4, 1, U16(0) + (U16(1) + (U16(0) + rest)));
    ReadU16(bytes, 6, 0, U16(1) + (U16(0) + rest));
    ReadU16(bytes, 8, 1, U16(0) + rest);
    ReadU16(bytes, 10, 0, rest);
  }

  // ----- as a set of values -----

  /** `rdata` is the data of one of the values. */
  ghost predicate DataOfSome(values: set<Text>, rdata: Text) {
    exists v :: v in values && TxtRdata(v) == rdata
  }

  /** The zone holds the data of exactly these values. */
  ghost predicate Serves(zone: seq<Text>, values: set<Text>) {
    && (forall v :: v in values ==> TxtRdata(v) in zone)
    && (forall rdata :: rdata in zone ==> DataOfSome(values, rdata))
  }

  lemma {:induction false} AddServes(zone: seq<Text>, values: set<Text>, v: Text)
    requires Serves(zone, values)
    ensures Serves(if TxtRdata(v) in zone then zone else zone + [TxtRdata(v)], values + {v})
  {
    var after := if TxtRdata(v) in zone then zone else zone + [TxtRdata(v)];
    forall rdata | rdata in after ensures DataOfSome(values + {v}, rdata) {
      if rdata in zone {
        assert DataOfSome(values, rdata);
        var w :| w in values && TxtRdata(w) == rdata;
        assert w in values + {v};
      } else {
        assert v in values + {v};
      }
    }
  }

  lemma {:induction false} RemoveServes(zone: seq<Text>, values: set<Text>, v: Text)
    requires Serves(zone, values)
    ensures Serves(Dropping(zone, TxtRdata(v)), values - {v})
  {
    var after := Dropping(zone, TxtRdata(v));
    forall w | w in values - {v} ensures TxtRdata(w) in after {
      if TxtRdata(w) == TxtRdata(v) {
        TxtRdataIsInjective(w, v);
      }
    }
    forall rdata | rdata in after ensures DataOfSome(values - {v}, rdata) {
      assert DataOfSome(values, rdata);
      var w :| w in values && TxtRdata(w) == rdata;
      assert w in values - {v};
    }
  }

  /**
   The UPDATE that `UpdateMessage` builds, with anything appended, turns the served values S into S + {v} for
   an add and S - {v} for a remove; a value too long for one record is refused when it is built.
   */
  lemma UpdateMeans(zoneName: Text, name: Text, change: Change, tail: Text, zone: seq<Text>, values: set<Text>)
    requires PlainName(zoneName) && PlainName(name) && Serves(zone, values)
    ensures UpdateMessage(zoneName, name, change).Ok? <==> |TxtRdata(change.value)| < 0x1_0000
    ensures UpdateMessage(zoneName, name, change).Ok? ==>
      var after := ApplyUpdate(UpdateMessage(zoneName, name, change).value + tail, zone);
      after.Some? && Serves(after.value, if change.Add? then values + {change.value} else values - {change.value})
  {
    if UpdateMessage(zoneName, name, change).Ok? {
      MessageCarries(zoneName, name, change, tail);
      CarriedUpdateMeans(UpdateMessage(zoneName, name, change).value + tail, zoneName, name, change, zone);
      AddServes(zone, values, change.value);
      RemoveServes(zone, values, change.value);
    }
  }
}
