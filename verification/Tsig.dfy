/**
 TSIG (RFC 8945): signing a message and checking a signed answer. HMAC is an arbitrary function whose
 results have the length of its algorithm; names are read without compression.
 */
module Tsig {
  import opened Wrappers
  import opened Bytes
  import opened Records
  import opened Names
  import opened Wire

  const TYPE_TSIG: nat := 250
  const CLASS_ANY: nat := 255
  const FUDGE: nat := 300
  const ARCOUNT_AT: nat := 10
  const HEADER_LEN: nat := 12

  datatype Algorithm = Sha224 | Sha256 | Sha384 | Sha512 {
    /** The algorithm's name: "hmac-sha" and its number of bits. */
    function Name(): Text {
      [104, 109, 97, 99, 45, 115, 104, 97] +
      match this
      case Sha224 => [50, 50, 52]
      case Sha256 => [50, 53, 54]
      case Sha384 => [51, 56, 52]
      case Sha512 => [53, 49, 50]
    }

    function OutputLen(): nat {
      match this
      case Sha224 => 28
      case Sha256 => 32
      case Sha384 => 48
      case Sha512 => 64
    }
  }

  datatype Key = Key(name: Text, algorithm: Algorithm, hmac: Text -> Text)

  datatype Error =
    | Malformed(why: WireError)
    | AlreadySigned
    | WrongId | NotAResponse | NotSigned | OtherKey | NoTsigLast | NonZeroTtl | TrailingBytes | OtherAlgorithm
    | MalformedTsig | CarriesError | WrongMacLength | BadMac | OutsideSkew | RefusedByServer

  function Wired<R>(r: Result<R, WireError>): Result<R, Error> {
    match r case Ok(v) => Ok(v) case Err(e) => Err(Malformed(e))
  }

  /** Equal up to the case of ASCII letters. */
  predicate SameName(a: Text, b: Text) {
    |a| == |b| && forall i :: 0 <= i < |a| ==> Lower(a[i]) == Lower(b[i])
  }

  // ----- signing -----

  /** The last part of what is signed, laid out as in section 4.3.3 of RFC 8945. */
  function Variables(key: Key, time: nat, fudge: nat, error: nat, other: Text): Result<Text, WireError> {
    var name :- EncodeName(key.name);
    var algorithm :- EncodeName(key.algorithm.Name());
    var t :- Time48(time);
    var otherLen :- Len16(|other|);
    Ok(name + U16(CLASS_ANY) + [0, 0, 0, 0] + algorithm + t + U16(fudge) + U16(error) + U16(otherLen) + other)
  }

  /** The request MAC, behind its length, leads the MAC input of an answer. */
  function Prefix(requestMac: Option<Text>): Result<Text, WireError> {
    match requestMac
    case None => Ok([])
    case Some(mac) =>
      var n :- Len16(|mac|);
      Ok(U16(n) + mac)
  }

  function Rdata(key: Key, id: nat, time: nat, mac: Text): Result<Text, WireError> {
    var algorithm :- EncodeName(key.algorithm.Name());
    var t :- Time48(time);
    var n :- Len16(|mac|);
    Ok(algorithm + (t + (U16(FUDGE) + (U16(n) + (mac + (U16(id) + (U16(0) + U16(0))))))))
  }

  datatype Signed = Signed(message: Text, mac: Text)

  /** Signs a complete message with no additional records, as a request or as the answer to one. */
  function SignWith(key: Key, message: Text, time: nat, requestMac: Option<Text>): Result<Signed, Error> {
    var id :- Wired(U16At(message, 0));
    var arcount :- Wired(U16At(message, ARCOUNT_AT));
    if arcount != 0 then Err(AlreadySigned)
    else
      var prefix :- Wired(Prefix(requestMac));
      var variables :- Wired(Variables(key, time, FUDGE, 0, []));
      var mac := key.hmac(prefix + message + variables);
      var rdata :- Wired(Rdata(key, id, time, mac));
      var owner :- Wired(EncodeName(key.name));
      var rdlen :- Wired(Len16(|rdata|));
      var record := owner + (U16(TYPE_TSIG) + (U16(CLASS_ANY) + ([0, 0, 0, 0] + (U16(rdlen) + rdata))));
      Ok(Signed(PutU16(message, ARCOUNT_AT, 1) + record, mac))
  }

  // ----- checking an answer -----

  /** The offset after `n` questions. */
  function QuestionsEnd(bytes: Text, at: nat, n: nat): Result<nat, WireError>
    decreases n
  {
    if n == 0 then Ok(at)
    else
      var name :- NameEnd(bytes, at);
      QuestionsEnd(bytes, name + 4, n - 1)
  }

  /** The offset after `n` records. */
  function RecordsEnd(bytes: Text, at: nat, n: nat): Result<nat, WireError>
    decreases n
  {
    if n == 0 then Ok(at)
    else
      var end :- RecordEnd(bytes, at);
      RecordsEnd(bytes, end, n - 1)
  }

  /** Where the last additional record starts. */
  function TsigStart(response: Text, arcount: nat): Result<nat, WireError>
    requires arcount > 0
  {
    var questions :- U16At(response, 4);
    var answers :- U16At(response, 6);
    var authorities :- U16At(response, 8);
    var at :- QuestionsEnd(response, HEADER_LEN, questions);
    RecordsEnd(response, at, answers + authorities + arcount - 1)
  }

  datatype TsigRecord = TsigRecord(
    owner: Text, algorithm: Text, time: nat, fudge: nat, mac: Text, originalId: nat, error: nat, other: Text)

  /** The TSIG record at `at`, if one is there and the message ends with it. */
  function TsigAt(response: Text, at: nat): Result<TsigRecord, Error> {
    var owner :- Wired(LabelsAt(response, at));
    TsigBehindOwner(response, owner.end, JoinLabels(owner.labels))
  }

  /** Checks the fixed fields after the owner and gives the offset of the record data. */
  function RdataStart(response: Text, at: nat): Result<nat, Error> {
    var kind :- Wired(U16At(response, at));
    var class_ :- Wired(U16At(response, at + 2));
    if kind != TYPE_TSIG || class_ != CLASS_ANY then Err(NoTsigLast)
    else
      var high :- Wired(U16At(response, at + 4));
      var low :- Wired(U16At(response, at + 6));
      if high != 0 || low != 0 then Err(NonZeroTtl)
      else
        var rdlen :- Wired(U16At(response, at + 8));
        if at + 10 + rdlen != |response| then Err(TrailingBytes) else Ok(at + 10)
  }

  function TsigRdata(response: Text, at: nat, owner: Text): Result<TsigRecord, Error> {
    var algorithm :- Wired(LabelsAt(response, at));
    TsigFields(response, algorithm.end, owner, JoinLabels(algorithm.labels))
  }

  function TsigFields(response: Text, p: nat, owner: Text, algorithm: Text): Result<TsigRecord, Error> {
    var time :- Wired(U48At(response, p));
    var fudge :- Wired(U16At(response, p + 6));
    var macLen :- Wired(U16At(response, p + 8));
    var mac :- Wired(Slice(response, p + 10, macLen));
    var q := p + 10 + macLen;
    var originalId :- Wired(U16At(response, q));
    var error :- Wired(U16At(response, q + 2));
    var otherLen :- Wired(U16At(response, q + 4));
    var other :- Wired(Slice(response, q + 6, otherLen));
    if q + 6 + otherLen != |response| then Err(MalformedTsig)
    else Ok(TsigRecord(owner, algorithm, time, fudge, mac, originalId, error, other))
  }

  /** The message as it was before it was signed. */
  function Unsigned(response: Text, at: nat, originalId: nat, arcount: nat): Text
    requires HEADER_LEN <= at <= |response| && arcount > 0
  {
    PutU16(PutU16(response[..at], 0, originalId), ARCOUNT_AT, arcount - 1)
  }

  function AbsDiff(a: nat, b: nat): nat {
    if a >= b then a - b else b - a
  }

  /** The MAC of the record is the one this key gives the message it signs. */
  predicate MacMatches(key: Key, response: Text, at: nat, arcount: nat, t: TsigRecord, requestMac: Text)
    requires HEADER_LEN <= at <= |response| && arcount > 0
  {
    var prefix := Prefix(Some(requestMac));
    var variables := Variables(key, t.time, t.fudge, t.error, t.other);
    prefix.Ok? && variables.Ok? &&
    key.hmac(prefix.value + Unsigned(response, at, t.originalId, arcount) + variables.value) == t.mac
  }

  /** An answer this key accepts. */
  predicate Accepts(key: Key, response: Text, requestId: nat, requestMac: Text, now: nat) {
    && U16At(response, 0) == Ok(requestId)
    && U16At(response, 2).Ok? && U16At(response, 2).value >= 0x8000 && U16At(response, 2).value % 16 == 0
    && U16At(response, ARCOUNT_AT).Ok? && U16At(response, ARCOUNT_AT).value > 0
    && var arcount := U16At(response, ARCOUNT_AT).value;
    && var at := TsigStart(response, arcount);
    && at.Ok? && HEADER_LEN <= at.value <= |response|
    && var t := TsigAt(response, at.value);
    && t.Ok? && SameName(t.value.owner, key.name) && SameName(t.value.algorithm, key.algorithm.Name())
    && t.value.error == 0 && |t.value.mac| == key.algorithm.OutputLen()
    && MacMatches(key, response, at.value, arcount, t.value, requestMac)
    && AbsDiff(now, t.value.time) <= t.value.fudge
  }

  // ----- the verifier -----

  /** Skips every record before the last one. */
  method FindTsig(response: Text, arcount: nat) returns (r: Result<nat, WireError>)
    requires arcount > 0
    ensures r == TsigStart(response, arcount) && r != Err(Endless)
  {
    var questions, answers, authorities := U16At(response, 4), U16At(response, 6), U16At(response, 8);
    if questions.Err? || answers.Err? || authorities.Err? {
      return Err(Truncated);
    }
    var at := HEADER_LEN;
    for i := 0 to questions.value
      invariant QuestionsEnd(response, at, questions.value - i) == QuestionsEnd(response, HEADER_LEN, questions.value)
    {
      var name := SkipName(response, at);
      NameEndNotEndless(response, at);
      if name.Err? {
        return Err(name.error);
      }
      at := name.value + 4;
    }
    var before := answers.value + authorities.value + arcount - 1;
    ghost var first := at;
    for i := 0 to before
      invariant RecordsEnd(response, at, before - i) == RecordsEnd(response, first, before)
    {
      var end := SkipRecord(response, at);
      NameEndNotEndless(response, at);
      if end.Err? {
        return Err(end.error);
      }
      at := end.value;
    }
    return Ok(at);
  }

  /** Reading the name at `at` never ends, and so the source never returns. */
  ghost predicate LoopsAt(response: Text, at: nat) {
    !Ends(StepsOf(response), at)
  }

  ghost predicate Loops(response: Text) {
    exists at: nat :: LoopsAt(response, at)
  }

  predicate RdataFits(key: Key, t: Result<TsigRecord, Error>) {
    t.Ok? && SameName(t.value.algorithm, key.algorithm.Name())
  }

  predicate RecordFits(key: Key, t: Result<TsigRecord, Error>) {
    t.Ok? && SameName(t.value.owner, key.name) && SameName(t.value.algorithm, key.algorithm.Name())
  }

  /** Reads the fields of the record data behind the algorithm. */
  method ReadFields(response: Text, start: nat, owner: Text, algorithm: Text) returns (r: Result<TsigRecord, Error>)
    ensures r == TsigFields(response, start, owner, algorithm) && r != Err(Malformed(Endless))
  {
    var at := start;
    var time, fudge, macLen := U48At(response, at), U16At(response, at + 6), U16At(response, at + 8);
    if time.Err? || fudge.Err? || macLen.Err? {
      return Err(Malformed(Truncated));
    }
    at := at + 10;
    var mac := Slice(response, at, macLen.value);
    if mac.Err? {
      return Err(Malformed(mac.error));
    }
    at := at + macLen.value;
    var originalId, error, otherLen := U16At(response, at), U16At(response, at + 2), U16At(response, at + 4);
    if originalId.Err? || error.Err? || otherLen.Err? {
      return Err(Malformed(Truncated));
    }
    var other := Slice(response, at + 6, otherLen.value);
    if other.Err? {
      return Err(Malformed(other.error));
    }
    if at + 6 + otherLen.value != |response| {
      return Err(MalformedTsig);
    }
    return Ok(TsigRecord(owner, algorithm, time.value, fudge.value, mac.value, originalId.value, error.value, other.value));
  }

  /** Reads the record data, refusing another algorithm first. */
  method CheckRdata(key: Key, response: Text, start: nat, owner: Text) returns (r: Result<TsigRecord, Error>)
    ensures r.Ok? <==> RdataFits(key, TsigRdata(response, start, owner))
    ensures r.Ok? ==> r == TsigRdata(response, start, owner)
    ensures r == Err(Malformed(Endless)) ==> LoopsAt(response, start)
  {
    var name := ReadName(response, start);
    if name.Err? {
      return Err(Malformed(name.error));
    }
    var algorithm := name.value.0;
    FieldsKeepNames(response, name.value.1, owner, algorithm);
    if !SameName(algorithm, key.algorithm.Name()) {
      return Err(OtherAlgorithm);
    }
    r := ReadFields(response, name.value.1, owner, algorithm);
  }

  lemma FieldsKeepNames(response: Text, p: nat, owner: Text, algorithm: Text)
    ensures var t := TsigFields(response, p, owner, algorithm);
      t.Ok? ==> t.value.owner == owner && t.value.algorithm == algorithm
  {
  }

  /** Reads the record at `start`, refusing another key's first. */
  method CheckRecord(key: Key, response: Text, start: nat) returns (r: Result<TsigRecord, Error>)
    ensures r.Ok? <==> RecordFits(key, TsigAt(response, start))
    ensures r.Ok? ==> r == TsigAt(response, start)
    ensures r == Err(Malformed(Endless)) ==> Loops(response)
  {
    var name := ReadName(response, start);
    assert name == Err(Endless) ==> LoopsAt(response, start);
    if name.Err? {
      return Err(Malformed(name.error));
    }
    r := CheckBehindOwner(key, response, name.value.1, name.value.0);
  }

  /** The record behind its owner name. */
  function TsigBehindOwner(response: Text, at: nat, owner: Text): Result<TsigRecord, Error> {
    var start :- RdataStart(response, at);
    TsigRdata(response, start, owner)
  }

  /** Reads the record behind its owner name. */
  method CheckBehindOwner(key: Key, response: Text, at: nat, owner: Text) returns (r: Result<TsigRecord, Error>)
    ensures r.Ok? <==> RecordFits(key, TsigBehindOwner(response, at, owner))
    ensures r.Ok? ==> r == TsigBehindOwner(response, at, owner)
    ensures r == Err(Malformed(Endless)) ==> Loops(response)
  {
    RdataKeepsOwner(response, at + 10, owner);
    if !SameName(owner, key.name) {
      return Err(OtherKey);
    }
    var rdata := RdataStart(response, at);
    RdataStartReadsNoName(response, at);
    if rdata.Err? {
      return Err(rdata.error);
    }
    r := CheckRdata(key, response, rdata.value, owner);
  }

  lemma RdataStartReadsNoName(response: Text, at: nat)
    ensures RdataStart(response, at) != Err(Malformed(Endless))
  {
  }

  lemma RdataKeepsOwner(response: Text, at: nat, owner: Text)
    ensures TsigRdata(response, at, owner).Ok? ==> TsigRdata(response, at, owner).value.owner == owner
  {
    var algorithm := LabelsAt(response, at);
    if algorithm.Ok? {
      FieldsKeepNames(response, algorithm.value.end, owner, JoinLabels(algorithm.value.labels));
    }
  }

  /** Exactly the answers that `Accepts` describes pass. */
  method VerifyResponse(key: Key, response: Text, requestId: nat, requestMac: Text, now: nat) returns (r: Result<(), Error>)
    ensures r.Ok? <==> Accepts(key, response, requestId, requestMac, now)
    ensures r == Err(Malformed(Endless)) ==> Loops(response)
  {
    var id, flags, arcount := U16At(response, 0), U16At(response, 2), U16At(response, ARCOUNT_AT);
    if id.Err? || flags.Err? || arcount.Err? {
      return Err(Malformed(Truncated));
    }
    if id.value != requestId {
      return Err(WrongId);
    }
    if flags.value < 0x8000 {
      return Err(NotAResponse);
    }
    var rcode := flags.value % 16;
    if arcount.value == 0 {
      return Err(NotSigned);
    }
    var start := FindTsig(response, arcount.value);
    if start.Err? {
      return Err(Malformed(start.error));
    }
    var at := start.value;
    TsigStartIsLate(response, arcount.value);
    var tsig := CheckRecord(key, response, at);
    if tsig.Err? {
      return Err(tsig.error);
    }
    var t := tsig.value;
    if t.error != 0 {
      return Err(CarriesError);
    }
    if |t.mac| != key.algorithm.OutputLen() {
      return Err(WrongMacLength);
    }
    var prefix, variables := Prefix(Some(requestMac)), Variables(key, t.time, t.fudge, t.error, t.other);
    if prefix.Err? || variables.Err? {
      return Err(Malformed(FieldTooLong));
    }
    if key.hmac(prefix.value + Unsigned(response, at, t.originalId, arcount.value) + variables.value) != t.mac {
      return Err(BadMac);
    }
    if AbsDiff(now, t.time) > t.fudge {
      return Err(OutsideSkew);
    }
    if rcode != 0 {
      return Err(RefusedByServer);
    }
    return Ok(());
  }

  lemma {:induction false} QuestionsMoveOn(bytes: Text, at: nat, n: nat)
    requires QuestionsEnd(bytes, at, n).Ok?
    ensures at <= QuestionsEnd(bytes, at, n).value
    decreases n
  {
    if n > 0 {
      NameEndContinues(bytes, bytes, at, at);
      QuestionsMoveOn(bytes, NameEnd(bytes, at).value + 4, n - 1);
    }
  }

  lemma {:induction false} RecordsMoveOn(bytes: Text, at: nat, n: nat)
    requires RecordsEnd(bytes, at, n).Ok?
    ensures at <= RecordsEnd(bytes, at, n).value
    decreases n
  {
    if n > 0 {
      RecordEndContinues(bytes, bytes, at, at);
      RecordsMoveOn(bytes, RecordEnd(bytes, at).value, n - 1);
    }
  }

  /** The last record starts behind the header. */
  lemma TsigStartIsLate(response: Text, arcount: nat)
    requires arcount > 0 && TsigStart(response, arcount).Ok?
    ensures TsigStart(response, arcount).value >= HEADER_LEN
    ensures TsigAt(response, TsigStart(response, arcount).value).Ok? ==> TsigStart(response, arcount).value <= |response|
  {
    var questions := U16At(response, 4).value;
    QuestionsMoveOn(response, HEADER_LEN, questions);
    RecordsMoveOn(response, QuestionsEnd(response, HEADER_LEN, questions).value,
                  U16At(response, 6).value + U16At(response, 8).value + arcount - 1);
  }

  // ----- what is signed is accepted -----

  /** A complete response without additional records: its sections end where it ends. */
  ghost predicate WellFormedResponse(message: Text) {
    && |message| >= HEADER_LEN
    && U16At(message, 2).value >= 0x8000 && U16At(message, 2).value % 16 == 0
    && U16At(message, ARCOUNT_AT) == Ok(0)
    && var at := QuestionsEnd(message, HEADER_LEN, U16At(message, 4).value);
    && at.Ok? && at.value <= |message|
    && RecordsEnd(message, at.value, U16At(message, 6).value + U16At(message, 8).value) == Ok(|message|)
  }

  /** A key whose names fit the wire and whose HMAC has the length of its algorithm. */
  ghost predicate UsableKey(key: Key) {
    && WireLabels(Split(key.name, DOT))
    && forall input :: |key.hmac(input)| == key.algorithm.OutputLen()
  }

  lemma {:induction false} QuestionsContinue(a: Text, b: Text, at: nat, n: nat)
    requires Continues(a, b, HEADER_LEN) && HEADER_LEN <= at && QuestionsEnd(a, at, n).Ok? && QuestionsEnd(a, at, n).value <= |a|
    ensures QuestionsEnd(b, at, n) == QuestionsEnd(a, at, n)
    decreases n
  {
    if n > 0 {
      NameEndContinues(a, b, HEADER_LEN, at);
      QuestionsContinue(a, b, NameEnd(a, at).value + 4, n - 1);
    }
  }

  lemma {:induction false} RecordsContinue(a: Text, b: Text, at: nat, n: nat)
    requires Continues(a, b, HEADER_LEN) && HEADER_LEN <= at && RecordsEnd(a, at, n).Ok?
    ensures RecordsEnd(b, at, n) == RecordsEnd(a, at, n)
    decreases n
  {
    if n > 0 {
      RecordEndContinues(a, b, HEADER_LEN, at);
      RecordsContinue(a, b, RecordEnd(a, at).value, n - 1);
    }
  }

  lemma {:induction false} SplitWithout(s: Text, sep: Byte)
    requires sep !in s
    ensures Split(s, sep) == [s]
  {
    if s != [] {
      SplitWithout(s[1..], sep);
      assert [s[0]] + s[1..] == s;
    }
  }

  lemma AlgorithmName(a: Algorithm)
    ensures Split(a.Name(), DOT) == [a.Name()] && |a.Name()| == 11
    ensures WireLabels([a.Name()]) && EncodeName(a.Name()).Ok?
    ensures |EncodeName(a.Name()).value| == 13
  {
    SplitWithout(a.Name(), DOT);
    var labels: seq<Text> := [a.Name()];
    assert labels[1..] == [] && EncodeLabels(labels[1..]) == [0];
    assert EncodeLabels(labels) == [11] + a.Name() + [0];
  }

  /** Everything the signer appends after the message. */
  ghost function TsigTail(key: Key, id: nat, time: nat, mac: Text): Text
    requires EncodeName(key.name).Ok? && EncodeName(key.algorithm.Name()).Ok?
  {
    EncodeName(key.name).value + FixedTail(RdataOf(key, id, time, mac))
  }

  ghost function RdataOf(key: Key, id: nat, time: nat, mac: Text): Text
    requires EncodeName(key.algorithm.Name()).Ok?
  {
    EncodeName(key.algorithm.Name()).value + RdataTail(id, time, mac)
  }

  ghost function FixedTail(rdata: Text): Text {
    U16(TYPE_TSIG) + (U16(CLASS_ANY) + ([0, 0, 0, 0] + (U16(|rdata|) + rdata)))
  }

  ghost function RdataTail(id: nat, time: nat, mac: Text): Text {
    BigEndian(time, 6) + (U16(FUDGE) + (U16(|mac|) + (mac + (U16(id) + (U16(0) + U16(0))))))
  }

  /** What a usable key signs, as a request or as the answer to one. */
  lemma SignMeaning(key: Key, message: Text, id: nat, time: nat, requestMac: Option<Text>)
    requires UsableKey(key) && |message| >= HEADER_LEN && U16At(message, 0) == Ok(id) && U16At(message, ARCOUNT_AT) == Ok(0)
    requires time < 0x1_0000_0000_0000 && Prefix(requestMac).Ok?
    ensures EncodeName(key.name).Ok? && EncodeName(key.algorithm.Name()).Ok? && Variables(key, time, FUDGE, 0, []).Ok?
    ensures var mac := key.hmac(Prefix(requestMac).value + message + Variables(key, time, FUDGE, 0, []).value);
      && |mac| == key.algorithm.OutputLen()
      && SignWith(key, message, time, requestMac)
           == Ok(Signed(PutU16(message, ARCOUNT_AT, 1) + TsigTail(key, id, time, mac), mac))
  {
    AlgorithmName(key.algorithm);
    assert LabelsFit(Split(key.name, DOT), 255);
    var mac := key.hmac(Prefix(requestMac).value + message + Variables(key, time, FUDGE, 0, []).value);
    assert |mac| == key.algorithm.OutputLen();
    assert Rdata(key, id, time, mac) == Ok(EncodeName(key.algorithm.Name()).value + RdataTail(id, time, mac));
  }

  /** The fields before the MAC. */
  lemma {:induction false} FieldsBeforeMac(bytes: Text, p: nat, time: nat, mac: Text, rest: Text)
    requires time < 0x1_0000_0000_0000 && |mac| < 0x1_0000
    requires Reads(bytes, p, BigEndian(time, 6), U16(FUDGE) + (U16(|mac|) + (mac + rest)))
    ensures U48At(bytes, p) == Ok(time) && U16At(bytes, p + 6) == Ok(FUDGE) && U16At(bytes, p + 8) == Ok(|mac|)
    ensures Slice(bytes, p + 10, |mac|) == Ok(mac) && p + 10 + |mac| <= |bytes| && bytes[p + 10 + |mac|..] == rest
  {
    ReadTime(bytes, p, time, U16(FUDGE) + (U16(|mac|) + (mac + rest)));
    ReadU16(bytes, p + 6, FUDGE, U16(|mac|) + (mac + rest));
    ReadU16(bytes, p + 8, |mac|, mac + rest);
    ReadChunk(bytes, p + 10, mac, rest);
  }

  /** The fields after the MAC, which end the message. */
  lemma FieldsAfterMac(bytes: Text, q: nat, id: nat)
    requires id < 0x1_0000 && Reads(bytes, q, U16(id), U16(0) + U16(0))
    ensures U16At(bytes, q) == Ok(id) && U16At(bytes, q + 2) == Ok(0) && U16At(bytes, q + 4) == Ok(0)
    ensures |bytes| == q + 6 && Slice(bytes, q + 6, 0) == Ok([])
  {
    ReadU16(bytes, q, id, U16(0) + U16(0));
    ReadU16(bytes, q + 2, 0, U16(0));
    LastU16(bytes, q + 4);
    assert bytes[q + 6..q + 6] == [];
  }

  /** The record data reads back field by field. */
  lemma RdataReadsBack(key: Key, bytes: Text, at: nat, id: nat, time: nat, mac: Text, owner: Text)
    requires id < 0x1_0000 && time < 0x1_0000_0000_0000 && |mac| < 0x1_0000 && EncodeName(key.algorithm.Name()).Ok?
    requires Reads(bytes, at, EncodeName(key.algorithm.Name()).value, RdataTail(id, time, mac))
    ensures TsigRdata(bytes, at, owner) == Ok(TsigRecord(owner, key.algorithm.Name(), time, FUDGE, mac, id, 0, []))
  {
    AlgorithmReadsBack(key.algorithm, bytes, at, RdataTail(id, time, mac));
    FieldsReadBack(bytes, at + 13, id, time, mac, owner, key.algorithm.Name());
  }

  lemma FieldsReadBack(bytes: Text, p: nat, id: nat, time: nat, mac: Text, owner: Text, algorithm: Text)
    requires id < 0x1_0000 && time < 0x1_0000_0000_0000 && |mac| < 0x1_0000
    requires p <= |bytes| && bytes[p..] == RdataTail(id, time, mac)
    ensures TsigFields(bytes, p, owner, algorithm) == Ok(TsigRecord(owner, algorithm, time, FUDGE, mac, id, 0, []))
  {
    var rest := U16(id) + (U16(0) + U16(0));
    FieldsBeforeMac(bytes, p, time, mac, rest);
    RestOfFields(bytes, p + 10 + |mac|, id, rest);
    FieldsTogether(bytes, p, id, time, mac, owner, algorithm);
  }

  lemma RestOfFields(bytes: Text, q: nat, id: nat, rest: Text)
    requires id < 0x1_0000 && rest == U16(id) + (U16(0) + U16(0)) && q <= |bytes| && bytes[q..] == rest
    ensures U16At(bytes, q) == Ok(id) && U16At(bytes, q + 2) == Ok(0) && U16At(bytes, q + 4) == Ok(0)
    ensures |bytes| == q + 6 && Slice(bytes, q + 6, 0) == Ok([])
  {
    FieldsAfterMac(bytes, q, id);
  }

  lemma FieldsTogether(bytes: Text, p: nat, id: nat, time: nat, mac: Text, owner: Text, algorithm: Text)
    requires U48At(bytes, p) == Ok(time) && U16At(bytes, p + 6) == Ok(FUDGE) && U16At(bytes, p + 8) == Ok(|mac|)
    requires Slice(bytes, p + 10, |mac|) == Ok(mac)
    requires var q := p + 10 + |mac|;
      && U16At(bytes, q) == Ok(id) && U16At(bytes, q + 2) == Ok(0) && U16At(bytes, q + 4) == Ok(0)
      && |bytes| == q + 6 && Slice(bytes, q + 6, 0) == Ok([])
    ensures TsigFields(bytes, p, owner, algorithm) == Ok(TsigRecord(owner, algorithm, time, FUDGE, mac, id, 0, []))
  {
  }

  lemma {:induction false} AlgorithmReadsBack(a: Algorithm, bytes: Text, at: nat, rest: Text)
    requires EncodeName(a.Name()).Ok? && Reads(bytes, at, EncodeName(a.Name()).value, rest)
    ensures LabelsAt(bytes, at) == Ok(NameAt([a.Name()], at + 13)) && JoinLabels([a.Name()]) == a.Name()
    ensures at + 13 <= |bytes| && bytes[at + 13..] == rest
  {
    AlgorithmName(a);
    NameRoundTrip(bytes, at, [a.Name()], rest);
  }

  lemma LastU16(bytes: Text, at: nat)
    requires at <= |bytes| && bytes[at..] == U16(0)
    ensures U16At(bytes, at) == Ok(0) && |bytes| == at + 2
  {
    assert U16(0) + [] == U16(0);
    ReadU16(bytes, at, 0, []);
  }

  /** The fixed fields between the owner and the record data. */
  lemma FixedFields(bytes: Text, at: nat, rdata: Text)
    requires |rdata| < 0x1_0000
    requires at <= |bytes| && bytes[at..] == FixedTail(rdata)
    ensures RdataStart(bytes, at) == Ok(at + 10)
    ensures at + 10 <= |bytes| && bytes[at + 10..] == rdata
  {
    ReadU16(bytes, at, TYPE_TSIG, U16(CLASS_ANY) + ([0, 0, 0, 0] + (U16(|rdata|) + rdata)));
    ReadU16(bytes, at + 2, CLASS_ANY, [0, 0, 0, 0] + (U16(|rdata|) + rdata));
    ZeroTtl(bytes, at + 4, U16(|rdata|) + rdata);
    ReadU16(bytes, at + 8, |rdata|, rdata);
  }

  lemma {:induction false} OwnerReadsBack(name: Text, bytes: Text, at: nat, rest: Text) returns (owner: NameAt)
    requires WireLabels(Split(name, DOT)) && EncodeName(name).Ok? && Reads(bytes, at, EncodeName(name).value, rest)
    ensures LabelsAt(bytes, at) == Ok(owner) && JoinLabels(owner.labels) == name
    ensures owner.end <= |bytes| && bytes[owner.end..] == rest
  {
    owner := NameAt(Split(name, DOT), at + |EncodeName(name).value|);
    NameRoundTrip(bytes, at, Split(name, DOT), rest);
    JoinSplit(name);
  }

  /** The whole TSIG record reads back. */
  lemma TsigReadsBack(key: Key, bytes: Text, at: nat, id: nat, time: nat, mac: Text)
    requires id < 0x1_0000 && time < 0x1_0000_0000_0000 && |mac| == key.algorithm.OutputLen()
    requires WireLabels(Split(key.name, DOT)) && EncodeName(key.name).Ok? && EncodeName(key.algorithm.Name()).Ok?
    requires at <= |bytes| && bytes[at..] == TsigTail(key, id, time, mac)
    ensures TsigAt(bytes, at) == Ok(TsigRecord(key.name, key.algorithm.Name(), time, FUDGE, mac, id, 0, []))
  {
    var rdata, t := RdataOf(key, id, time, mac), TsigRecord(key.name, key.algorithm.Name(), time, FUDGE, mac, id, 0, []);
    RdataIsShort(key, id, time, mac);
    forall p: nat | p <= |bytes| && bytes[p..] == rdata ensures TsigRdata(bytes, p, key.name) == Ok(t) {
      RdataReadsBack(key, bytes, p, id, time, mac, key.name);
    }
    RecordReadsBack(bytes, at, rdata, t);
  }

  /** Wherever `rdata` ends the message, it reads as the record's. */
  ghost predicate RdataReads(bytes: Text, rdata: Text, t: TsigRecord) {
    forall p: nat :: p <= |bytes| && bytes[p..] == rdata ==> TsigRdata(bytes, p, t.owner) == Ok(t)
  }

  lemma {:induction false} RecordReadsBack(bytes: Text, at: nat, rdata: Text, t: TsigRecord)
    requires WireLabels(Split(t.owner, DOT)) && EncodeName(t.owner).Ok? && |rdata| < 0x1_0000
    requires Reads(bytes, at, EncodeName(t.owner).value, FixedTail(rdata)) && RdataReads(bytes, rdata, t)
    ensures TsigAt(bytes, at) == Ok(t)
  {
    var owner := OwnerAndFixed(t.owner, bytes, at, rdata);
    TsigTogether(bytes, at, owner, t);
  }

  lemma {:induction false} OwnerAndFixed(name: Text, bytes: Text, at: nat, rdata: Text) returns (owner: NameAt)
    requires WireLabels(Split(name, DOT)) && EncodeName(name).Ok? && |rdata| < 0x1_0000
    requires Reads(bytes, at, EncodeName(name).value, FixedTail(rdata))
    ensures LabelsAt(bytes, at) == Ok(owner) && JoinLabels(owner.labels) == name
    ensures RdataStart(bytes, owner.end) == Ok(owner.end + 10)
    ensures owner.end + 10 <= |bytes| && bytes[owner.end + 10..] == rdata
  {
    owner := OwnerReadsBack(name, bytes, at, FixedTail(rdata));
    FixedFields(bytes, owner.end, rdata);
  }

  lemma TsigTogether(bytes: Text, at: nat, owner: NameAt, t: TsigRecord)
    requires LabelsAt(bytes, at) == Ok(owner) && RdataStart(bytes, owner.end) == Ok(owner.end + 10)
    requires TsigRdata(bytes, owner.end + 10, JoinLabels(owner.labels)) == Ok(t)
    ensures TsigAt(bytes, at) == Ok(t)
  {
  }

  lemma RdataIsShort(key: Key, id: nat, time: nat, mac: Text)
    requires EncodeName(key.algorithm.Name()).Ok? && |mac| == key.algorithm.OutputLen()
    ensures |RdataOf(key, id, time, mac)| < 0x1_0000
  {
    AlgorithmName(key.algorithm);
  }

  lemma ZeroTtl(bytes: Text, at: nat, rest: Text)
    requires Reads(bytes, at, [0, 0, 0, 0], rest)
    ensures U16At(bytes, at) == Ok(0) && U16At(bytes, at + 2) == Ok(0)
    ensures at + 4 <= |bytes| && bytes[at + 4..] == rest
  {
    assert U16(0) == [0, 0] by {
      assert BigEndian(0, 1) == [0];
    }
    assert [0, 0, 0, 0] + rest == U16(0) + (U16(0) + rest);
    ReadU16(bytes, at, 0, U16(0) + rest);
    ReadU16(bytes, at + 2, 0, rest);
  }

  // ----- the header and the sections in front of the record -----

  lemma HeaderOfSigned(message: Text, tail: Text, at: nat)
    requires |message| >= HEADER_LEN && at + 2 <= ARCOUNT_AT
    ensures U16At(PutU16(message, ARCOUNT_AT, 1) + tail, at) == U16At(message, at)
  {
    var signed := PutU16(message, ARCOUNT_AT, 1) + tail;
    assert signed[at..at + 2] == message[at..at + 2];
  }

  lemma CountOfSigned(message: Text, tail: Text)
    requires |message| >= HEADER_LEN
    ensures U16At(PutU16(message, ARCOUNT_AT, 1) + tail, ARCOUNT_AT) == Ok(1)
  {
    var signed := PutU16(message, ARCOUNT_AT, 1) + tail;
    var rest := message[HEADER_LEN..] + tail;
    assert signed == message[..ARCOUNT_AT] + (U16(1) + rest);
    assert signed[ARCOUNT_AT..] == U16(1) + rest;
    ReadU16(signed, ARCOUNT_AT, 1, rest);
  }

  lemma StartOfSigned(message: Text, tail: Text)
    requires WellFormedResponse(message)
    ensures TsigStart(PutU16(message, ARCOUNT_AT, 1) + tail, 1) == Ok(|message|)
  {
    var signed := PutU16(message, ARCOUNT_AT, 1) + tail;
    HeaderOfSigned(message, tail, 4);
    HeaderOfSigned(message, tail, 6);
    HeaderOfSigned(message, tail, 8);
    assert Continues(message, signed, HEADER_LEN);
    var questions := U16At(message, 4).value;
    QuestionsContinue(message, signed, HEADER_LEN, questions);
    QuestionsMoveOn(message, HEADER_LEN, questions);
    RecordsContinue(message, signed, QuestionsEnd(message, HEADER_LEN, questions).value,
                    U16At(message, 6).value + U16At(message, 8).value);
  }

  /** Putting the same id and the old count back gives the message that was signed. */
  lemma UnsignedIsMessage(message: Text, tail: Text, id: nat)
    requires |message| >= HEADER_LEN && U16At(message, 0) == Ok(id) && U16At(message, ARCOUNT_AT) == Ok(0)
    ensures Unsigned(PutU16(message, ARCOUNT_AT, 1) + tail, |message|, id, 1) == message
  {
    var m1 := PutU16(message, ARCOUNT_AT, 1);
    assert (m1 + tail)[..|message|] == m1;
    PutBack(message, 0, id);
    PutBack(message, ARCOUNT_AT, 0);
    PutSame(m1, message, id);
  }

  /** Writing a number over itself changes nothing. */
  lemma PutBack(bytes: Text, at: nat, n: nat)
    requires U16At(bytes, at) == Ok(n)
    ensures bytes[at..at + 2] == U16(n)
  {
    var pair := bytes[at..at + 2];
    assert pair[..1] == [pair[0]] && pair[..1][..0] == [];
    var high: int, low: int := pair[0], pair[1];
    assert Number(pair[..1]) == high && n == high * 256 + low;
    assert BigEndian(n / 256, 1) == [high];
    assert U16(n) == [high, low];
  }

  lemma PutSame(m1: Text, message: Text, id: nat)
    requires |message| >= HEADER_LEN && m1 == PutU16(message, ARCOUNT_AT, 1)
    requires message[0..2] == U16(id) && message[ARCOUNT_AT..ARCOUNT_AT + 2] == U16(0)
    ensures PutU16(PutU16(m1, 0, id), ARCOUNT_AT, 0) == message
  {
    assert PutU16(m1, 0, id) == m1;
    assert PutU16(m1, ARCOUNT_AT, 0) == message[..ARCOUNT_AT] + U16(0) + message[HEADER_LEN..];
  }

  /**
   What the signer produces for an answer is accepted by the verifier under the same key, id and request MAC,
   as long as the clocks differ by no more than the fudge.
   */
  lemma SignedIsAccepted(key: Key, message: Text, id: nat, time: nat, requestMac: Text, now: nat)
    requires UsableKey(key) && WellFormedResponse(message) && U16At(message, 0) == Ok(id) && id < 0x1_0000
    requires time < 0x1_0000_0000_0000 && |requestMac| < 0x1_0000 && AbsDiff(now, time) <= FUDGE
    ensures SignWith(key, message, time, Some(requestMac)).Ok?
    ensures Accepts(key, SignWith(key, message, time, Some(requestMac)).value.message, id, requestMac, now)
  {
    SignMeaning(key, message, id, time, Some(requestMac));
    var variables := Variables(key, time, FUDGE, 0, []).value;
    var mac := key.hmac(Prefix(Some(requestMac)).value + message + variables);
    var tail := TsigTail(key, id, time, mac);
    var signed := PutU16(message, ARCOUNT_AT, 1) + tail;
    HeaderOfSigned(message, tail, 0);
    HeaderOfSigned(message, tail, 2);
    CountOfSigned(message, tail);
    StartOfSigned(message, tail);
    assert signed[|message|..] == tail;
    TsigReadsBack(key, signed, |message|, id, time, mac);
    UnsignedIsMessage(message, tail, id);
  }
}
