/**
 The bytes that TSIG signs and sends, read back field by field with the numbers of sections 4.2 and 4.3 of RFC 8945,
 so that a server written from the standard alone reads the same.
 */
module TsigLayout {
  import opened Wrappers
  import opened Sequences
  import opened Bytes
  import opened Records
  import opened Names
  import opened Wire
  import opened Tsig

  // ----- numbers are big-endian -----

  lemma {:induction false} NumberOfOneMore(bytes: Text, last: Byte)
    ensures Number(bytes + [last]) == Number(bytes) * 256 + last
  {
    assert (bytes + [last])[..|bytes|] == bytes;
  }

  /** Two bytes, the high one first. */
  lemma {:induction false} U16Bytes(bytes: Text, at: nat)
    requires at + 2 <= |bytes|
    ensures var high: int, low: int := bytes[at], bytes[at + 1]; U16At(bytes, at) == Ok(256 * high + low)
  {
    NumberOfOneMore([], bytes[at]);
    NumberOfOneMore([bytes[at]], bytes[at + 1]);
    assert [] + [bytes[at]] == [bytes[at]];
    assert bytes[at..at + 2] == [bytes[at]] + [bytes[at + 1]];
  }

  /** Six bytes, the highest first. */
  lemma {:induction false} U48Bytes(bytes: Text, at: nat, high: nat, mid: nat, low: nat)
    requires U16At(bytes, at) == Ok(high) && U16At(bytes, at + 2) == Ok(mid) && U16At(bytes, at + 4) == Ok(low)
    ensures U48At(bytes, at) == Ok(0x1_0000_0000 * high + 0x1_0000 * mid + low)
  {
    var a, b, c := bytes[at..at + 2], bytes[at + 2..at + 4], bytes[at + 4..at + 6];
    NumberOfPair(a, b);
    NumberOfPair(a + b, c);
    assert bytes[at..at + 6] == a + b + c;
  }

  lemma {:induction false} NumberOfPair(bytes: Text, pair: Text)
    requires |pair| == 2
    ensures Number(bytes + pair) == 0x1_0000 * Number(bytes) + Number(pair)
  {
    NumberOfOneMore(bytes, pair[0]);
    NumberOfOneMore(bytes + [pair[0]], pair[1]);
    NumberOfOneMore([], pair[0]);
    NumberOfOneMore([pair[0]], pair[1]);
    assert bytes + pair == bytes + [pair[0]] + [pair[1]];
    assert pair == [pair[0]] + [pair[1]] && [] + [pair[0]] == [pair[0]];
  }

  // ----- the MAC input -----

  /** A name as it is encoded at `at`; one whose labels fit the wire reads back. */
  ghost predicate NameStandsAt(bytes: Text, at: nat, name: Text) {
    && EncodeName(name).Ok? && Slice(bytes, at, |EncodeName(name).value|) == Ok(EncodeName(name).value)
    && (WireLabels(Split(name, DOT)) ==> LabelsAt(bytes, at) == Ok(NameAt(Split(name, DOT), at + |EncodeName(name).value|)))
  }

  /** Class 255, lifetime 0, and the algorithm's name, which ends at `p + 19`. */
  ghost predicate AlgorithmAt(bytes: Text, p: nat, algorithm: Algorithm) {
    && U16At(bytes, p) == Ok(255) && Slice(bytes, p + 2, 4) == Ok([0, 0, 0, 0])
    && LabelsAt(bytes, p + 6) == Ok(NameAt([algorithm.Name()], p + 19))
  }

  /** Time, fudge, error, and the other data behind its length, which end the bytes. */
  ghost predicate TimeAt(bytes: Text, q: nat, time: nat, fudge: nat, error: nat, other: Text) {
    && U48At(bytes, q) == Ok(time) && U16At(bytes, q + 6) == Ok(fudge) && U16At(bytes, q + 8) == Ok(error)
    && U16At(bytes, q + 10) == Ok(|other|) && Slice(bytes, q + 12, |other|) == Ok(other)
    && |bytes| == q + 12 + |other|
  }

  /** The request MAC behind its length, if there is one. */
  ghost predicate LeadsWith(bytes: Text, requestMac: Option<Text>) {
    match requestMac
    case None => true
    case Some(mac) => U16At(bytes, 0) == Ok(|mac|) && Slice(bytes, 2, |mac|) == Ok(mac)
  }

  /** The key's name at `n`, then everything up to the end. */
  ghost predicate VariablesAt(bytes: Text, n: nat, key: Key, time: nat, fudge: nat, error: nat, other: Text) {
    && NameStandsAt(bytes, n, key.name)
    && var p := n + |EncodeName(key.name).value|;
    && AlgorithmAt(bytes, p, key.algorithm) && TimeAt(bytes, p + 19, time, fudge, error, other)
  }

  /** What is given to HMAC: the request MAC, then the message, then the key's name and the variables. */
  ghost predicate MacInput(bytes: Text, requestMac: Option<Text>, message: Text, key: Key, time: nat, fudge: nat, error: nat,
                           other: Text)
  {
    && LeadsWith(bytes, requestMac)
    && var at := if requestMac.Some? then 2 + |requestMac.value| else 0;
    && Slice(bytes, at, |message|) == Ok(message)
    && VariablesAt(bytes, at + |message|, key, time, fudge, error, other)
  }

  lemma {:induction false} NameStands(bytes: Text, at: nat, name: Text, rest: Text)
    requires EncodeName(name).Ok? && Reads(bytes, at, EncodeName(name).value, rest)
    ensures NameStandsAt(bytes, at, name)
    ensures at + |EncodeName(name).value| <= |bytes| && bytes[at + |EncodeName(name).value|..] == rest
  {
    ReadChunk(bytes, at, EncodeName(name).value, rest);
    if WireLabels(Split(name, DOT)) {
      NameRoundTrip(bytes, at, Split(name, DOT), rest);
    }
  }

  ghost function AlgorithmOn(key: Key): Text {
    match EncodeName(key.algorithm.Name()) case Ok(bytes) => bytes case Err(_) => []
  }

  /** The fields behind the algorithm name. */
  ghost function TimeOn(time: nat, fudge: nat, error: nat, other: Text): Text {
    BigEndian(time, 6) + (U16(fudge) + (U16(error) + (U16(|other|) + other)))
  }

  lemma {:induction false} VariablesInOrder(key: Key, time: nat, fudge: nat, error: nat, other: Text)
    requires Variables(key, time, fudge, error, other).Ok?
    ensures EncodeName(key.name).Ok? && time < 0x1_0000_0000_0000 && |other| < 0x1_0000
    ensures Variables(key, time, fudge, error, other).value ==
      EncodeName(key.name).value + (U16(255) + ([0, 0, 0, 0] + (AlgorithmOn(key) + TimeOn(time, fudge, error, other))))
  {
    AlgorithmName(key.algorithm);
    var n, a := EncodeName(key.name).value, AlgorithmOn(key);
    Regroup8(n, U16(255), [0, 0, 0, 0], a, BigEndian(time, 6), U16(fudge), U16(error), U16(|other|), other);
  }

  lemma {:induction false} Regroup8(a: Text, b: Text, c: Text, d: Text, e: Text, f: Text, g: Text, h: Text, i: Text)
    ensures a + b + c + d + e + f + g + h + i == a + (b + (c + (d + (e + (f + (g + (h + i)))))))
  {
    Regroup(a + b + c + d + e + f + g, h, i);
    Regroup(a + b + c + d + e + f, g, h + i);
    Regroup(a + b + c + d + e, f, g + (h + i));
    Regroup(a + b + c + d, e, f + (g + (h + i)));
    Regroup(a + b + c, d, e + (f + (g + (h + i))));
    Regroup(a + b, c, d + (e + (f + (g + (h + i)))));
    Regroup(a, b, c + (d + (e + (f + (g + (h + i))))));
  }

  lemma {:induction false} TimeReads(bytes: Text, q: nat, time: nat, fudge: nat, error: nat, other: Text)
    requires time < 0x1_0000_0000_0000 && fudge < 0x1_0000 && error < 0x1_0000 && |other| < 0x1_0000
    requires q <= |bytes| && bytes[q..] == TimeOn(time, fudge, error, other)
    ensures TimeAt(bytes, q, time, fudge, error, other)
  {
    ReadTime(bytes, q, time, U16(fudge) + (U16(error) + (U16(|other|) + other)));
    ReadU16(bytes, q + 6, fudge, U16(error) + (U16(|other|) + other));
    ReadU16(bytes, q + 8, error, U16(|other|) + other);
    ReadU16(bytes, q + 10, |other|, other);
    assert other + [] == other;
    ReadChunk(bytes, q + 12, other, []);
  }

  lemma {:induction false} AlgorithmReads(bytes: Text, p: nat, key: Key, rest: Text)
    requires Reads(bytes, p, U16(255), [0, 0, 0, 0] + (AlgorithmOn(key) + rest))
    ensures AlgorithmAt(bytes, p, key.algorithm) && p + 19 <= |bytes| && bytes[p + 19..] == rest
  {
    AlgorithmName(key.algorithm);
    ReadU16(bytes, p, 255, [0, 0, 0, 0] + (AlgorithmOn(key) + rest));
    ReadChunk(bytes, p + 2, [0, 0, 0, 0], AlgorithmOn(key) + rest);
    AlgorithmReadsBack(key.algorithm, bytes, p + 6, rest);
  }

  lemma {:induction false} FieldsRead(bytes: Text, p: nat, key: Key, time: nat, fudge: nat, error: nat, other: Text, fields: Text)
    requires time < 0x1_0000_0000_0000 && fudge < 0x1_0000 && error < 0x1_0000 && |other| < 0x1_0000
    requires fields == TimeOn(time, fudge, error, other)
    requires Reads(bytes, p, U16(255), [0, 0, 0, 0] + (AlgorithmOn(key) + fields))
    ensures AlgorithmAt(bytes, p, key.algorithm) && TimeAt(bytes, p + 19, time, fudge, error, other)
  {
    AlgorithmReads(bytes, p, key, fields);
    TimeReads(bytes, p + 19, time, fudge, error, other);
  }

  lemma {:induction false} PartsTogether(bytes: Text, n: nat, p: nat, key: Key, time: nat, fudge: nat, error: nat, other: Text)
    requires NameStandsAt(bytes, n, key.name) && p == n + |EncodeName(key.name).value|
    requires AlgorithmAt(bytes, p, key.algorithm) && TimeAt(bytes, p + 19, time, fudge, error, other)
    ensures VariablesAt(bytes, n, key, time, fudge, error, other)
  {
  }

  lemma {:induction false} PartsRead(bytes: Text, n: nat, p: nat, key: Key, time: nat, fudge: nat, error: nat, other: Text,
                                     fields: Text, rest: Text)
    requires time < 0x1_0000_0000_0000 && fudge < 0x1_0000 && error < 0x1_0000 && |other| < 0x1_0000
    requires fields == TimeOn(time, fudge, error, other)
    requires rest == U16(255) + ([0, 0, 0, 0] + (AlgorithmOn(key) + fields))
    requires EncodeName(key.name).Ok? && Reads(bytes, n, EncodeName(key.name).value, rest)
    requires p == n + |EncodeName(key.name).value|
    ensures VariablesAt(bytes, n, key, time, fudge, error, other)
  {
    NameStands(bytes, n, key.name, rest);
    FieldsRead(bytes, p, key, time, fudge, error, other, fields);
    PartsTogether(bytes, n, p, key, time, fudge, error, other);
  }

  lemma {:induction false} VariablesRead(bytes: Text, n: nat, key: Key, time: nat, fudge: nat, error: nat, other: Text)
    requires Variables(key, time, fudge, error, other).Ok? && fudge < 0x1_0000 && error < 0x1_0000
    requires n <= |bytes| && bytes[n..] == Variables(key, time, fudge, error, other).value
    ensures VariablesAt(bytes, n, key, time, fudge, error, other)
  {
    VariablesInOrder(key, time, fudge, error, other);
    var fields := TimeOn(time, fudge, error, other);
    PartsRead(bytes, n, n + |EncodeName(key.name).value|, key, time, fudge, error, other, fields,
              U16(255) + ([0, 0, 0, 0] + (AlgorithmOn(key) + fields)));
  }

  lemma {:induction false} PrefixReads(bytes: Text, requestMac: Option<Text>, rest: Text)
    requires Prefix(requestMac).Ok? && bytes == Prefix(requestMac).value + rest
    ensures LeadsWith(bytes, requestMac)
    ensures var at := if requestMac.Some? then 2 + |requestMac.value| else 0; at <= |bytes| && bytes[at..] == rest
  {
    assert bytes[0..] == bytes;
    match requestMac
    case None =>
    case Some(mac) =>
      Regroup(U16(|mac|), mac, rest);
      ReadU16(bytes, 0, |mac|, mac + rest);
      ReadChunk(bytes, 2, mac, rest);
  }

  lemma {:induction false} MessageReads(bytes: Text, requestMac: Option<Text>, message: Text, variables: Text)
    requires Prefix(requestMac).Ok? && bytes == Prefix(requestMac).value + message + variables
    ensures LeadsWith(bytes, requestMac)
    ensures var at := if requestMac.Some? then 2 + |requestMac.value| else 0;
      Slice(bytes, at, |message|) == Ok(message) && at + |message| <= |bytes| && bytes[at + |message|..] == variables
  {
    Regroup(Prefix(requestMac).value, message, variables);
    PrefixReads(bytes, requestMac, message + variables);
    ReadChunk(bytes, if requestMac.Some? then 2 + |requestMac.value| else 0, message, variables);
  }

  ghost function MessageEnd(requestMac: Option<Text>, message: Text): nat {
    (if requestMac.Some? then 2 + |requestMac.value| else 0) + |message|
  }

  lemma {:induction false} InputTogether(bytes: Text, key: Key, requestMac: Option<Text>, message: Text, time: nat, fudge: nat,
                                         error: nat, other: Text)
    requires LeadsWith(bytes, requestMac) && VariablesAt(bytes, MessageEnd(requestMac, message), key, time, fudge, error, other)
    requires Slice(bytes, MessageEnd(requestMac, message) - |message|, |message|) == Ok(message)
    ensures MacInput(bytes, requestMac, message, key, time, fudge, error, other)
  {
  }

  lemma {:induction false} VariablesBehind(bytes: Text, key: Key, requestMac: Option<Text>, message: Text, time: nat, fudge: nat,
                                           error: nat, other: Text, n: nat)
    requires Prefix(requestMac).Ok? && Variables(key, time, fudge, error, other).Ok? && fudge < 0x1_0000 && error < 0x1_0000
    requires bytes == Prefix(requestMac).value + message + Variables(key, time, fudge, error, other).value
    requires n == MessageEnd(requestMac, message)
    ensures VariablesAt(bytes, n, key, time, fudge, error, other)
  {
    MessageReads(bytes, requestMac, message, Variables(key, time, fudge, error, other).value);
    VariablesRead(bytes, n, key, time, fudge, error, other);
  }

  /** What signer and verifier give to HMAC is laid out as the standard says. */
  lemma {:induction false} InputReads(bytes: Text, key: Key, requestMac: Option<Text>, message: Text, time: nat, fudge: nat,
                                      error: nat, other: Text, variables: Text)
    requires Prefix(requestMac).Ok? && Variables(key, time, fudge, error, other) == Ok(variables)
    requires bytes == Prefix(requestMac).value + message + variables && fudge < 0x1_0000 && error < 0x1_0000
    ensures MacInput(bytes, requestMac, message, key, time, fudge, error, other)
  {
    MessageReads(bytes, requestMac, message, variables);
    VariablesBehind(bytes, key, requestMac, message, time, fudge, error, other, MessageEnd(requestMac, message));
    InputTogether(bytes, key, requestMac, message, time, fudge, error, other);
  }

  // ----- what is signed, and what is accepted -----

  lemma {:induction false} MacOfSigned(key: Key, message: Text, time: nat, requestMac: Option<Text>)
    requires SignWith(key, message, time, requestMac).Ok?
    ensures Prefix(requestMac).Ok? && Variables(key, time, 300, 0, []).Ok?
    ensures SignWith(key, message, time, requestMac).value.mac
         == key.hmac(Prefix(requestMac).value + message + Variables(key, time, 300, 0, []).value)
  {
  }

  /** The key gives the MAC for an input with this layout. */
  ghost predicate MacFor(key: Key, mac: Text, requestMac: Option<Text>, message: Text, time: nat, fudge: nat, error: nat, other: Text) {
    exists input :: MacInput(input, requestMac, message, key, time, fudge, error, other) && mac == key.hmac(input)
  }

  lemma {:induction false} MacIsFor(key: Key, mac: Text, requestMac: Option<Text>, message: Text, time: nat, fudge: nat, error: nat,
                                    other: Text)
    requires Prefix(requestMac).Ok? && Variables(key, time, fudge, error, other).Ok? && fudge < 0x1_0000 && error < 0x1_0000
    requires mac == key.hmac(Prefix(requestMac).value + message + Variables(key, time, fudge, error, other).value)
    ensures MacFor(key, mac, requestMac, message, time, fudge, error, other)
  {
    var variables := Variables(key, time, fudge, error, other).value;
    InputReads(Prefix(requestMac).value + message + variables, key, requestMac, message, time, fudge, error, other, variables);
  }

  /** The MAC of a signed message, whatever the key: fudge 300, no error, no other data. */
  lemma {:induction false} SignedOver(key: Key, message: Text, time: nat, requestMac: Option<Text>)
    requires SignWith(key, message, time, requestMac).Ok?
    ensures MacFor(key, SignWith(key, message, time, requestMac).value.mac, requestMac, message, time, 300, 0, [])
  {
    MacOfSigned(key, message, time, requestMac);
    MacIsFor(key, SignWith(key, message, time, requestMac).value.mac, requestMac, message, time, 300, 0, []);
  }

  /** The message before it was signed: another id and one record less, and nothing behind it. */
  ghost predicate IsUnsigned(message: Text, response: Text, at: nat, id: nat, arcount: nat) {
    && 12 <= at == |message| <= |response| && arcount > 0
    && U16At(message, 0) == Ok(id) && message[2..10] == response[2..10]
    && U16At(message, 10) == Ok(arcount - 1) && message[12..] == response[12..at]
  }

  lemma {:induction false} NumberBelow(bytes: Text)
    ensures Number(bytes) < Pow256(|bytes|)
  {
    if bytes != [] {
      NumberBelow(bytes[..|bytes| - 1]);
    }
  }

  lemma {:induction false} U16Below(bytes: Text, at: nat)
    requires U16At(bytes, at).Ok?
    ensures U16At(bytes, at).value < 0x1_0000
  {
    NumberBelow(bytes[at..at + 2]);
    SmallPowers();
  }

  lemma {:induction false} PutReads(bytes: Text, at: nat, n: nat)
    requires at + 2 <= |bytes| && n < 0x1_0000
    ensures U16At(PutU16(bytes, at, n), at) == Ok(n)
  {
    var after := PutU16(bytes, at, n);
    assert after[at..] == U16(n) + bytes[at + 2..];
    ReadU16(after, at, n, bytes[at + 2..]);
  }

  lemma {:induction false} UnsignedMeaning(response: Text, at: nat, id: nat, arcount: nat)
    requires 12 <= at <= |response| && 0 < arcount <= 0x1_0000 && id < 0x1_0000
    ensures IsUnsigned(Unsigned(response, at, id, arcount), response, at, id, arcount)
  {
    var head := response[..at];
    var named := PutU16(head, 0, id);
    var message := PutU16(named, 10, arcount - 1);
    PutReads(head, 0, id);
    PutReads(named, 10, arcount - 1);
    assert message[0..2] == named[0..2];
    assert message[2..10] == named[2..10] == head[2..10] == response[2..10];
    assert message[12..] == named[12..] == head[12..] == response[12..at];
  }

  /** The numbers of a record that was read fit their fields. */
  lemma {:induction false} FieldsFit(response: Text, p: nat, owner: Text, algorithm: Text)
    requires TsigFields(response, p, owner, algorithm).Ok?
    ensures var t := TsigFields(response, p, owner, algorithm).value;
      t.fudge < 0x1_0000 && t.error < 0x1_0000 && t.originalId < 0x1_0000
  {
    var t := TsigFields(response, p, owner, algorithm).value;
    U16Below(response, p + 6);
    var q := p + 10 + U16At(response, p + 8).value;
    U16Below(response, q);
    U16Below(response, q + 2);
  }

  lemma {:induction false} RecordFitsFields(response: Text, at: nat)
    requires TsigAt(response, at).Ok?
    ensures var t := TsigAt(response, at).value; t.fudge < 0x1_0000 && t.error < 0x1_0000 && t.originalId < 0x1_0000
  {
    var owner := LabelsAt(response, at).value;
    var start := RdataStart(response, owner.end).value;
    var algorithm := LabelsAt(response, start).value;
    FieldsFit(response, algorithm.end, JoinLabels(owner.labels), JoinLabels(algorithm.labels));
  }

  /** `mac` is what the key makes of the message in front of the record, with the fields of the record. */
  ghost predicate MacOver(key: Key, response: Text, at: nat, arcount: nat, t: TsigRecord, requestMac: Text) {
    exists message ::
      && IsUnsigned(message, response, at, t.originalId, arcount)
      && MacFor(key, t.mac, Some(requestMac), message, t.time, t.fudge, t.error, t.other)
  }

  lemma {:induction false} MatchingMac(key: Key, response: Text, at: nat, arcount: nat, t: TsigRecord, requestMac: Text)
    requires 12 <= at <= |response| && 0 < arcount <= 0x1_0000 && MacMatches(key, response, at, arcount, t, requestMac)
    requires t.fudge < 0x1_0000 && t.error < 0x1_0000 && t.originalId < 0x1_0000
    ensures MacOver(key, response, at, arcount, t, requestMac)
  {
    var message := Unsigned(response, at, t.originalId, arcount);
    UnsignedMeaning(response, at, t.originalId, arcount);
    MacIsFor(key, t.mac, Some(requestMac), message, t.time, t.fudge, t.error, t.other);
  }

  /** An accepted answer carries a MAC over its own bytes, laid out as the standard says. */
  lemma {:induction false} AcceptedOver(key: Key, response: Text, requestId: nat, requestMac: Text, now: nat)
    requires Accepts(key, response, requestId, requestMac, now)
    ensures var arcount := U16At(response, 10).value;
      var at := TsigStart(response, arcount).value;
      MacOver(key, response, at, arcount, TsigAt(response, at).value, requestMac)
  {
    var arcount := U16At(response, 10).value;
    U16Below(response, 10);
    var at := TsigStart(response, arcount).value;
    RecordFitsFields(response, at);
    MatchingMac(key, response, at, arcount, TsigAt(response, at).value, requestMac);
  }

  // ----- the record that is appended -----

  /** Type 250, class 255, lifetime 0, and the length of the record data, which ends the bytes. */
  ghost predicate FixedAt(bytes: Text, p: nat) {
    && U16At(bytes, p) == Ok(250) && U16At(bytes, p + 2) == Ok(255) && Slice(bytes, p + 4, 4) == Ok([0, 0, 0, 0])
    && p + 10 <= |bytes| && U16At(bytes, p + 8) == Ok(|bytes| - (p + 10))
  }

  /** Time, fudge 300, the MAC behind its length, the id, no error and no other data, which end the bytes. */
  ghost predicate SignatureAt(bytes: Text, q: nat, id: nat, time: nat, mac: Text) {
    MacAt(bytes, q, time, mac) && IdAt(bytes, q + 10 + |mac|, id)
  }

  /** The algorithm's name, then the signature. */
  ghost predicate RdataAt(bytes: Text, at: nat, key: Key, id: nat, time: nat, mac: Text) {
    LabelsAt(bytes, at) == Ok(NameAt([key.algorithm.Name()], at + 13)) && SignatureAt(bytes, at + 13, id, time, mac)
  }

  /** Wherever it ends a message, `rdata` reads as the signature. */
  ghost predicate ReadsAsSignature(rdata: Text, key: Key, id: nat, time: nat, mac: Text) {
    forall bytes: Text, at: nat :: at <= |bytes| && bytes[at..] == rdata ==> RdataAt(bytes, at, key, id, time, mac)
  }

  /** The TSIG record of section 4.2 from `at` to the end. */
  ghost predicate RecordAt(bytes: Text, at: nat, key: Key, id: nat, time: nat, mac: Text) {
    && NameStandsAt(bytes, at, key.name)
    && var p := at + |EncodeName(key.name).value|;
    && FixedAt(bytes, p) && RdataAt(bytes, p + 10, key, id, time, mac)
  }

  lemma {:induction false} FixedReads(bytes: Text, p: nat, rdata: Text)
    requires |rdata| < 0x1_0000 && p <= |bytes| && bytes[p..] == FixedTail(rdata)
    ensures FixedAt(bytes, p) && bytes[p + 10..] == rdata
  {
    ReadU16(bytes, p, 250, U16(255) + ([0, 0, 0, 0] + (U16(|rdata|) + rdata)));
    ReadU16(bytes, p + 2, 255, [0, 0, 0, 0] + (U16(|rdata|) + rdata));
    ReadChunk(bytes, p + 4, [0, 0, 0, 0], U16(|rdata|) + rdata);
    ReadU16(bytes, p + 8, |rdata|, rdata);
  }

  /** The fields up to the MAC. */
  ghost predicate MacAt(bytes: Text, q: nat, time: nat, mac: Text) {
    && U48At(bytes, q) == Ok(time) && U16At(bytes, q + 6) == Ok(300) && U16At(bytes, q + 8) == Ok(|mac|)
    && Slice(bytes, q + 10, |mac|) == Ok(mac)
  }

  /** The fields behind the MAC, which end the bytes. */
  ghost predicate IdAt(bytes: Text, r: nat, id: nat) {
    U16At(bytes, r) == Ok(id) && U16At(bytes, r + 2) == Ok(0) && U16At(bytes, r + 4) == Ok(0) && |bytes| == r + 6
  }

  lemma {:induction false} MacReads(bytes: Text, q: nat, time: nat, mac: Text, rest: Text)
    requires time < 0x1_0000_0000_0000 && |mac| < 0x1_0000
    requires Reads(bytes, q, BigEndian(time, 6), U16(FUDGE) + (U16(|mac|) + (mac + rest)))
    ensures MacAt(bytes, q, time, mac) && q + 10 + |mac| <= |bytes| && bytes[q + 10 + |mac|..] == rest
  {
    FieldsBeforeMac(bytes, q, time, mac, rest);
  }

  lemma {:induction false} SignatureReads(bytes: Text, q: nat, id: nat, time: nat, mac: Text)
    requires id < 0x1_0000 && time < 0x1_0000_0000_0000 && |mac| < 0x1_0000
    requires q <= |bytes| && bytes[q..] == RdataTail(id, time, mac)
    ensures SignatureAt(bytes, q, id, time, mac)
  {
    var rest := U16(id) + (U16(0) + U16(0));
    MacReads(bytes, q, time, mac, rest);
    IdReads(bytes, q + 10 + |mac|, id, rest);
  }

  lemma {:induction false} IdReads(bytes: Text, r: nat, id: nat, rest: Text)
    requires id < 0x1_0000 && rest == U16(id) + (U16(0) + U16(0)) && r <= |bytes| && bytes[r..] == rest
    ensures IdAt(bytes, r, id)
  {
    FieldsAfterMac(bytes, r, id);
  }

  lemma {:induction false} RdataReads(bytes: Text, at: nat, key: Key, id: nat, time: nat, mac: Text, rdata: Text)
    requires id < 0x1_0000 && time < 0x1_0000_0000_0000 && |mac| < 0x1_0000 && EncodeName(key.algorithm.Name()).Ok?
    requires rdata == RdataOf(key, id, time, mac) && at <= |bytes| && bytes[at..] == rdata
    ensures RdataAt(bytes, at, key, id, time, mac)
  {
    AlgorithmReadsBack(key.algorithm, bytes, at, RdataTail(id, time, mac));
    SignatureReads(bytes, at + 13, id, time, mac);
  }

  lemma {:induction false} OwnerReads(bytes: Text, at: nat, name: Text, p: nat, rdata: Text)
    requires EncodeName(name).Ok? && p == at + |EncodeName(name).value| && |rdata| < 0x1_0000
    requires Reads(bytes, at, EncodeName(name).value, FixedTail(rdata))
    ensures NameStandsAt(bytes, at, name) && FixedAt(bytes, p) && bytes[p + 10..] == rdata
  {
    NameStands(bytes, at, name, FixedTail(rdata));
    FixedReads(bytes, p, rdata);
  }

  lemma {:induction false} RecordReads(bytes: Text, at: nat, key: Key, id: nat, time: nat, mac: Text, rdata: Text)
    requires |rdata| < 0x1_0000 && EncodeName(key.name).Ok? && ReadsAsSignature(rdata, key, id, time, mac)
    requires Reads(bytes, at, EncodeName(key.name).value, FixedTail(rdata))
    ensures RecordAt(bytes, at, key, id, time, mac)
  {
    var p := at + |EncodeName(key.name).value|;
    OwnerReads(bytes, at, key.name, p, rdata);
    assert RdataAt(bytes, p + 10, key, id, time, mac);
  }

  lemma {:induction false} RdataIsSignature(key: Key, id: nat, time: nat, mac: Text, rdata: Text)
    requires id < 0x1_0000 && time < 0x1_0000_0000_0000 && |mac| == key.algorithm.OutputLen()
    requires EncodeName(key.algorithm.Name()).Ok? && rdata == RdataOf(key, id, time, mac)
    ensures |rdata| < 0x1_0000 && ReadsAsSignature(rdata, key, id, time, mac)
  {
    RdataIsShort(key, id, time, mac);
    forall bytes: Text, at: nat | at <= |bytes| && bytes[at..] == rdata ensures RdataAt(bytes, at, key, id, time, mac) {
      RdataReads(bytes, at, key, id, time, mac, rdata);
    }
  }

  /** The message with one additional record and bytes behind it. */
  ghost predicate OneMoreRecord(message: Text, bytes: Text) {
    && 12 <= |message| <= |bytes| && bytes[..10] == message[..10] && bytes[10..12] == [0, 1]
    && bytes[12..|message|] == message[12..]
  }

  lemma {:induction false} CountedUp(message: Text, tail: Text)
    requires |message| >= 12
    ensures OneMoreRecord(message, PutU16(message, 10, 1) + tail)
  {
    var bytes := PutU16(message, 10, 1) + tail;
    assert BigEndian(0, 1) == [0] && U16(1) == [0, 1];
    assert bytes[..10] == message[..10] && bytes[10..12] == U16(1) && bytes[12..|message|] == message[12..];
  }

  /**
   What a usable key sends: the message with its additional count at one and the TSIG record behind it, holding the
   MAC of the message.
   */
  lemma {:induction false} SignedLayout(key: Key, message: Text, id: nat, time: nat, requestMac: Option<Text>)
    requires UsableKey(key) && |message| >= 12 && U16At(message, 0) == Ok(id) && U16At(message, 10) == Ok(0)
    requires time < 0x1_0000_0000_0000 && (requestMac.Some? ==> |requestMac.value| < 0x1_0000)
    ensures var r := SignWith(key, message, time, requestMac);
      && r.Ok? && OneMoreRecord(message, r.value.message)
      && RecordAt(r.value.message, |message|, key, id, time, r.value.mac)
      && MacFor(key, r.value.mac, requestMac, message, time, 300, 0, [])
  {
    SignMeaning(key, message, id, time, requestMac);
    SignedOver(key, message, time, requestMac);
    U16Below(message, 0);
    var mac := SignWith(key, message, time, requestMac).value.mac;
    TailReads(key, message, id, time, mac, TsigTail(key, id, time, mac));
  }

  lemma {:induction false} TailReads(key: Key, message: Text, id: nat, time: nat, mac: Text, tail: Text)
    requires id < 0x1_0000 && time < 0x1_0000_0000_0000 && |mac| == key.algorithm.OutputLen() && |message| >= 12
    requires EncodeName(key.name).Ok? && EncodeName(key.algorithm.Name()).Ok? && tail == TsigTail(key, id, time, mac)
    ensures OneMoreRecord(message, PutU16(message, 10, 1) + tail)
    ensures RecordAt(PutU16(message, 10, 1) + tail, |message|, key, id, time, mac)
  {
    CountedUp(message, tail);
    var rdata := RdataOf(key, id, time, mac);
    RdataIsSignature(key, id, time, mac, rdata);
    RecordBehind(key, PutU16(message, 10, 1), id, time, mac, rdata);
  }

  lemma {:induction false} RecordBehind(key: Key, message: Text, id: nat, time: nat, mac: Text, rdata: Text)
    requires |rdata| < 0x1_0000 && EncodeName(key.name).Ok? && ReadsAsSignature(rdata, key, id, time, mac)
    ensures RecordAt(message + (EncodeName(key.name).value + FixedTail(rdata)), |message|, key, id, time, mac)
  {
    var tail := EncodeName(key.name).value + FixedTail(rdata);
    assert (message + tail)[|message|..] == tail;
    RecordReads(message + tail, |message|, key, id, time, mac, rdata);
  }

  // ----- any record reads back -----

  /** The fields behind the algorithm name, as section 4.2 lists them. */
  ghost function FieldsOn(t: TsigRecord): Text {
    BigEndian(t.time, 6) + (U16(t.fudge) + (U16(|t.mac|) + (t.mac + EndOn(t))))
  }

  ghost function EndOn(t: TsigRecord): Text {
    U16(t.originalId) + (U16(t.error) + (U16(|t.other|) + t.other))
  }

  /** A record whose names and numbers fit their fields. */
  ghost predicate Encodable(t: TsigRecord) {
    && WireLabels(Split(t.owner, DOT)) && EncodeName(t.owner).Ok?
    && WireLabels(Split(t.algorithm, DOT)) && EncodeName(t.algorithm).Ok?
    && |EncodeName(t.algorithm).value + FieldsOn(t)| < 0x1_0000
    && t.time < 0x1_0000_0000_0000 && t.fudge < 0x1_0000 && t.originalId < 0x1_0000 && t.error < 0x1_0000
  }

  lemma {:induction false} StartReads(bytes: Text, p: nat, t: TsigRecord, rest: Text)
    requires t.time < 0x1_0000_0000_0000 && t.fudge < 0x1_0000 && |t.mac| < 0x1_0000
    requires Reads(bytes, p, BigEndian(t.time, 6), U16(t.fudge) + (U16(|t.mac|) + (t.mac + rest)))
    ensures U48At(bytes, p) == Ok(t.time) && U16At(bytes, p + 6) == Ok(t.fudge) && U16At(bytes, p + 8) == Ok(|t.mac|)
    ensures Slice(bytes, p + 10, |t.mac|) == Ok(t.mac) && p + 10 + |t.mac| <= |bytes| && bytes[p + 10 + |t.mac|..] == rest
  {
    ReadTime(bytes, p, t.time, U16(t.fudge) + (U16(|t.mac|) + (t.mac + rest)));
    ReadU16(bytes, p + 6, t.fudge, U16(|t.mac|) + (t.mac + rest));
    ReadU16(bytes, p + 8, |t.mac|, t.mac + rest);
    ReadChunk(bytes, p + 10, t.mac, rest);
  }

  lemma {:induction false} EndReads(bytes: Text, q: nat, t: TsigRecord)
    requires t.originalId < 0x1_0000 && t.error < 0x1_0000 && |t.other| < 0x1_0000
    requires q <= |bytes| && bytes[q..] == EndOn(t)
    ensures U16At(bytes, q) == Ok(t.originalId) && U16At(bytes, q + 2) == Ok(t.error) && U16At(bytes, q + 4) == Ok(|t.other|)
    ensures Slice(bytes, q + 6, |t.other|) == Ok(t.other) && |bytes| == q + 6 + |t.other|
  {
    ReadU16(bytes, q, t.originalId, U16(t.error) + (U16(|t.other|) + t.other));
    ReadU16(bytes, q + 2, t.error, U16(|t.other|) + t.other);
    ReadU16(bytes, q + 4, |t.other|, t.other);
    assert t.other + [] == t.other;
    ReadChunk(bytes, q + 6, t.other, []);
  }

  lemma {:induction false} AnyFieldsTogether(bytes: Text, p: nat, t: TsigRecord)
    requires U48At(bytes, p) == Ok(t.time) && U16At(bytes, p + 6) == Ok(t.fudge) && U16At(bytes, p + 8) == Ok(|t.mac|)
    requires Slice(bytes, p + 10, |t.mac|) == Ok(t.mac)
    requires var q := p + 10 + |t.mac|;
      && U16At(bytes, q) == Ok(t.originalId) && U16At(bytes, q + 2) == Ok(t.error) && U16At(bytes, q + 4) == Ok(|t.other|)
      && Slice(bytes, q + 6, |t.other|) == Ok(t.other) && |bytes| == q + 6 + |t.other|
    ensures TsigFields(bytes, p, t.owner, t.algorithm) == Ok(t)
  {
  }

  lemma {:induction false} AnyFieldsRead(bytes: Text, p: nat, t: TsigRecord)
    requires Encodable(t) && p <= |bytes| && bytes[p..] == FieldsOn(t)
    ensures TsigFields(bytes, p, t.owner, t.algorithm) == Ok(t)
  {
    StartReads(bytes, p, t, EndOn(t));
    EndReads(bytes, p + 10 + |t.mac|, t);
    AnyFieldsTogether(bytes, p, t);
  }

  lemma {:induction false} AnyRdataReads(bytes: Text, at: nat, t: TsigRecord, rdata: Text)
    requires Encodable(t) && rdata == EncodeName(t.algorithm).value + FieldsOn(t) && at <= |bytes| && bytes[at..] == rdata
    ensures TsigRdata(bytes, at, t.owner) == Ok(t)
  {
    var algorithm := OwnerReadsBack(t.algorithm, bytes, at, FieldsOn(t));
    AnyFieldsRead(bytes, algorithm.end, t);
  }

  /** Whatever its fields hold, a TSIG record at the end of a message is read as it was written. */
  lemma {:induction false} AnyRecordReads(bytes: Text, at: nat, t: TsigRecord, rdata: Text)
    requires Encodable(t) && rdata == EncodeName(t.algorithm).value + FieldsOn(t)
    requires Reads(bytes, at, EncodeName(t.owner).value, U16(250) + (U16(255) + ([0, 0, 0, 0] + (U16(|rdata|) + rdata))))
    ensures TsigAt(bytes, at) == Ok(t)
  {
    var owner := OwnerAndFixed(t.owner, bytes, at, rdata);
    AnyRdataReads(bytes, owner.end + 10, t, rdata);
    TsigTogether(bytes, at, owner, t);
  }
}
