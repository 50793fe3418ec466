/**
 The RFC 2136 provider: the UPDATE for a record, with an id and a signature, is sent to the primary server, and its
 signed answer is checked. Everything from the record to the bytes the server acts on is tied together here.
 */
module Rfc2136Provider {
  import opened Wrappers
  import opened Bytes
  import opened Records
  import opened Names
  import opened Wire
  import opened Update
  import opened Primary
  import Tsig
  import TsigLayout

  // ----- names and values as bytes -----

  predicate Ascii(s: string) {
    forall i :: 0 <= i < |s| ==> s[i] < '\U{80}'
  }

  function AsBytes(s: string): (r: Text)
    requires Ascii(s)
    ensures |r| == |s| && forall i :: 0 <= i < |r| ==> r[i] == s[i] as int
  {
    seq(|s|, i requires 0 <= i < |s| && Ascii(s) => assert s[i] < '\U{80}'; s[i] as int)
  }

  lemma {:induction false} SplitSizes(s: string)
    requires Ascii(s)
    ensures |Split(AsBytes(s), DOT)| == |Split(s, '.')|
    ensures forall i :: 0 <= i < |Split(s, '.')| ==> |Split(AsBytes(s), DOT)[i]| == |Split(s, '.')[i]|
  {
    if s != [] {
      SplitSizes(s[1..]);
      assert AsBytes(s)[1..] == AsBytes(s[1..]);
    }
  }

  /** The labels of a valid name mean themselves on the wire. */
  lemma {:induction false} ValidNameIsWire(fqdn: string)
    requires ValidFqdn(fqdn)
    ensures Ascii(fqdn) && WireLabels(Split(AsBytes(fqdn), DOT))
  {
    assert Ascii(fqdn) by {
      forall i | 0 <= i < |fqdn| ensures fqdn[i] < '\U{80}' {
        assert NameChar(fqdn[i]);
      }
    }
    SplitSizes(fqdn);
    forall i | 0 <= i < |Split(fqdn, '.')| ensures ValidLabel(Split(fqdn, '.')[i]) {
    }
  }

  /** The names under which the algorithms are known. */
  lemma AlgorithmNames()
    ensures Ascii("hmac-sha224") && Ascii("hmac-sha256") && Ascii("hmac-sha384") && Ascii("hmac-sha512")
    ensures Tsig.Algorithm.Sha224.Name() == AsBytes("hmac-sha224") && Tsig.Algorithm.Sha256.Name() == AsBytes("hmac-sha256")
    ensures Tsig.Algorithm.Sha384.Name() == AsBytes("hmac-sha384") && Tsig.Algorithm.Sha512.Name() == AsBytes("hmac-sha512")
  {
  }

  // ----- an id and a signature change nothing of what is asked -----

  /** `b` is `a` with another id, another additional count, and more bytes behind it. */
  ghost predicate Dressed(a: Text, b: Text) {
    12 <= |a| <= |b| && b[2..10] == a[2..10] && b[12..|a|] == a[12..]
  }

  lemma HeaderWordKept(a: Text, b: Text, at: nat)
    requires Dressed(a, b) && 2 <= at <= 8
    ensures U16At(b, at) == U16At(a, at)
  {
    forall i | at <= i < at + 2 ensures b[i] == a[i] {
      assert b[2..10][i - 2] == a[2..10][i - 2];
    }
    assert b[at..at + 2] == a[at..at + 2];
  }

  lemma BodyKept(a: Text, b: Text, z: Text, soa: Text, n: Text, r: Text, rest: Text)
    requires Dressed(a, b) && Reads(a, 12, z, soa + (n + (r + rest)))
    ensures Reads(b, 12, z, soa + (n + (r + (rest + b[|a|..]))))
  {
    assert b[12..] == b[12..|a|] + b[|a|..];
    Regroup5(z, soa, n, r, rest, b[|a|..]);
  }

  lemma {:induction false} StillCarries(a: Text, b: Text, zone: Text, name: Text, change: Change)
    requires Carries(a, zone, name, change) && Dressed(a, b)
    ensures Carries(b, zone, name, change)
  {
    HeaderWordKept(a, b, 2);
    HeaderWordKept(a, b, 4);
    HeaderWordKept(a, b, 6);
    HeaderWordKept(a, b, 8);
    var z, n := EncodeName(zone).value, EncodeName(name).value;
    var rest :| Reads(a, 12, z, (U16(TYPE_SOA) + U16(CLASS_IN)) + (n + (RecordTail(change) + rest)));
    BodyKept(a, b, z, U16(TYPE_SOA) + U16(CLASS_IN), n, RecordTail(change), rest);
  }

  lemma DressedBySigning(m: Text, id: nat, tail: Text)
    requires |m| >= 12
    ensures var withId := PutU16(m, 0, id);
      |withId| == |m| && Dressed(m, PutU16(withId, Tsig.ARCOUNT_AT, 1) + tail)
  {
    var withId := PutU16(m, 0, id);
    var signed := PutU16(withId, Tsig.ARCOUNT_AT, 1) + tail;
    assert withId[2..] == m[2..];
    assert signed[2..10] == m[2..10] && signed[12..|m|] == m[12..];
  }

  lemma IdAndCountRead(m: Text, id: nat)
    requires |m| >= 12 && id < 0x1_0000
    ensures U16At(PutU16(m, 0, id), 0) == Ok(id) && U16At(PutU16(m, 0, id), Tsig.ARCOUNT_AT) == U16At(m, Tsig.ARCOUNT_AT)
  {
    var withId := PutU16(m, 0, id);
    assert withId[0..] == U16(id) + m[2..];
    ReadU16(withId, 0, id, m[2..]);
    assert withId[10..12] == m[10..12];
  }

  lemma {:induction false} BuiltHasNoAdditional(zone: Text, name: Text, change: Change)
    requires UpdateMessage(zone, name, change).Ok?
    ensures var m := UpdateMessage(zone, name, change).value;
      |m| >= 12 && U16At(m, Tsig.ARCOUNT_AT) == Ok(0) && Carries(m, zone, name, change)
  {
    var m := UpdateMessage(zone, name, change).value;
    MessageCarries(zone, name, change, []);
    assert m + [] == m;
    AdditionalIsZero(m, m[12..]);
  }

  lemma AdditionalIsZero(m: Text, body: Text)
    requires m == Header() + body
    ensures U16At(m, 10) == Ok(0)
  {
    Regroup5([0, 0, 0x28, 0], U16(1), U16(0), U16(1), U16(0), body);
    assert m[10..] == U16(0) + body;
    ReadU16(m, 10, 0, body);
  }

  // ----- what is sent -----

  datatype UpdateError = OutsideZone | TooLong(field: WireError) | Unsigned(why: Tsig.Error) | Unreachable | Refused(why: Tsig.Error)

  /** The bytes sent for a change, and their MAC. */
  function Outgoing(key: Tsig.Key, zone: Text, name: Text, change: Change, id: nat, time: nat): Result<Tsig.Signed, UpdateError>
  {
    if ZoneFor(zone, name).None? then Err(OutsideZone)
    else
      match UpdateMessage(zone, name, change)
      case Err(e) => Err(TooLong(e))
      case Ok(m) =>
        if |m| < 2 then Err(TooLong(Truncated))
        else
          match Tsig.SignWith(key, PutU16(m, 0, id), time, None)
          case Err(e) => Err(Unsigned(e))
          case Ok(signed) => Ok(signed)
  }

  /** What the bytes do to a server of the zone, whatever it holds. */
  ghost predicate Performs(zone: Text, name: Text, change: Change, bytes: Text) {
    forall data: Data, values: set<Text> :: Serves(At(data, Folded(name)), values) ==>
      PerformsOn(zone, name, change, bytes, data, values)
  }

  ghost predicate PerformsOn(zone: Text, name: Text, change: Change, bytes: Text, data: Data, values: set<Text>) {
    var after := Serve(zone, data, bytes);
    && after.Some? && SameElsewhere(data, after.value, Folded(name))
    && Serves(At(after.value, Folded(name)), Wanted(values, change))
  }

  lemma {:induction false} CarriedPerforms(zone: Text, name: Text, change: Change, bytes: Text)
    requires Carries(bytes, zone, name, change) && |TxtRdata(change.value)| < 0x1_0000
    requires ZoneFor(zone, name).Some? && WireLabels(Split(name, DOT))
    ensures Performs(zone, name, change, bytes)
  {
    forall data: Data, values: set<Text> | Serves(At(data, Folded(name)), values)
      ensures PerformsOn(zone, name, change, bytes, data, values)
    {
      ServedUpdate(zone, name, change, bytes, data, values);
    }
  }

  /** The record at the end of what is sent is the key's signature, over the message with its id. */
  ghost predicate SignedBy(key: Tsig.Key, message: Text, id: nat, time: nat, sent: Tsig.Signed) {
    && TsigLayout.OneMoreRecord(message, sent.message)
    && TsigLayout.RecordAt(sent.message, |message|, key, id, time, sent.mac)
    && TsigLayout.MacFor(key, sent.mac, None, message, time, 300, 0, [])
  }

  lemma {:induction false} SignedRequest(key: Tsig.Key, message: Text, id: nat, time: nat)
    requires Tsig.UsableKey(key) && id < 0x1_0000 && time < 0x1_0000_0000_0000
    requires |message| >= 12 && U16At(message, 0) == Ok(id) && U16At(message, Tsig.ARCOUNT_AT) == Ok(0)
    ensures var sent := Tsig.SignWith(key, message, time, None);
      && sent.Ok? && SignedBy(key, message, id, time, sent.value)
      && exists tail :: sent.value.message == PutU16(message, Tsig.ARCOUNT_AT, 1) + tail
  {
    Tsig.SignMeaning(key, message, id, time, None);
    TsigLayout.SignedLayout(key, message, id, time, None);
  }

  /** A value too long for one record is refused; every other change to a name of the zone is sent. */
  lemma {:induction false} BuiltIff(zone: Text, name: Text, change: Change)
    requires ZoneFor(zone, name).Some? && WireLabels(Split(name, DOT))
    ensures UpdateMessage(zone, name, change).Ok? <==> |TxtRdata(change.value)| < 0x1_0000
  {
    ZoneLabels(zone, name);
    assert LabelsFit(Split(zone, DOT), 255) && LabelsFit(Split(name, DOT), 255);
  }

  /**
   From the record to the server: for a name of the zone and a value that fits, what is sent is signed by the key
   and makes the server add or remove exactly that value at exactly that name.
   */
  lemma {:induction false} OutgoingMeans(key: Tsig.Key, zone: Text, name: Text, change: Change, id: nat, time: nat)
    requires Tsig.UsableKey(key) && WireLabels(Split(name, DOT)) && id < 0x1_0000 && time < 0x1_0000_0000_0000
    ensures var sent := Outgoing(key, zone, name, change, id, time);
      && (sent.Ok? <==> ZoneFor(zone, name).Some? && |TxtRdata(change.value)| < 0x1_0000)
      && (sent.Ok? ==> UpdateMessage(zone, name, change).Ok? && |UpdateMessage(zone, name, change).value| >= 2)
      && (sent.Ok? ==> SignedBy(key, PutU16(UpdateMessage(zone, name, change).value, 0, id), id, time, sent.value))
      && (sent.Ok? ==> Performs(zone, name, change, sent.value.message))
  {
    if ZoneFor(zone, name).Some? {
      BuiltIff(zone, name, change);
      if |TxtRdata(change.value)| < 0x1_0000 {
        SentMeans(key, zone, name, change, id, time);
      }
    }
  }

  lemma {:induction false} SentMeans(key: Tsig.Key, zone: Text, name: Text, change: Change, id: nat, time: nat)
    requires Tsig.UsableKey(key) && WireLabels(Split(name, DOT)) && id < 0x1_0000 && time < 0x1_0000_0000_0000
    requires ZoneFor(zone, name).Some? && |TxtRdata(change.value)| < 0x1_0000 && UpdateMessage(zone, name, change).Ok?
    ensures |UpdateMessage(zone, name, change).value| >= 2
    ensures var message := PutU16(UpdateMessage(zone, name, change).value, 0, id);
      var sent := Tsig.SignWith(key, message, time, None);
      && sent.Ok? && SignedBy(key, message, id, time, sent.value) && Performs(zone, name, change, sent.value.message)
  {
    var m := UpdateMessage(zone, name, change).value;
    BuiltHasNoAdditional(zone, name, change);
    IdAndCountRead(m, id);
    var message := PutU16(m, 0, id);
    SignedRequest(key, message, id, time);
    var sent := Tsig.SignWith(key, message, time, None).value;
    var tail :| sent.message == PutU16(message, Tsig.ARCOUNT_AT, 1) + tail;
    DressedBySigning(m, id, tail);
    StillCarries(m, sent.message, zone, name, change);
    CarriedPerforms(zone, name, change, sent.message);
  }

  /**
   Presenting or deleting a record: builds, signs and sends the change and checks the answer. Ok exactly when the
   change was sent and the answer is one this key accepts for it.
   */
  method Send(key: Tsig.Key, zone: string, record: DnsRecord, remove: bool, id: nat, time: nat,
              exchange: Text -> Option<Text>, now: nat)
    returns (r: Result<(), UpdateError>, sent: Option<Tsig.Signed>)
    requires Tsig.UsableKey(key) && ValidFqdn(zone) && ValidFqdn(record.fqdn) && ValidValue(record.value)
    requires id < 0x1_0000 && time < 0x1_0000_0000_0000
    ensures Ascii(zone) && Ascii(record.fqdn) && Ascii(record.value)
    ensures var z, name, value := AsBytes(zone), AsBytes(record.fqdn), AsBytes(record.value);
      && (sent.Some? <==> ZoneFor(z, name).Some? && |TxtRdata(value)| < 0x1_0000)
      && (sent.Some? ==> Performs(z, name, if remove then Remove(value) else Add(value), sent.value.message))
    ensures r.Ok? <==> sent.Some? && exchange(sent.value.message).Some?
                       && Tsig.Accepts(key, exchange(sent.value.message).value, id, sent.value.mac, now)
  {
    ValidNameIsWire(zone);
    ValidNameIsWire(record.fqdn);
    var z, name, value := AsBytes(zone), AsBytes(record.fqdn), AsBytes(record.value);
    var change := if remove then Remove(value) else Add(value);
    OutgoingMeans(key, z, name, change, id, time);
    var outgoing := Outgoing(key, z, name, change, id, time);
    if outgoing.Err? {
      return Err(outgoing.error), None;
    }
    sent := Some(outgoing.value);
    var answer := exchange(outgoing.value.message);
    if answer.None? {
      return Err(Unreachable), sent;
    }
    var verified := Tsig.VerifyResponse(key, answer.value, id, outgoing.value.mac, now);
    r := match verified case Ok(_) => Ok(()) case Err(e) => Err(Refused(e));
  }
}
