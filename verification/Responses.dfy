/**
 Answers built from questions and records, as any server builds them: the readers that skip the sections end exactly
 where the sections end, so a signed answer of this kind is accepted.
 */
module Responses {
  import opened Wrappers
  import opened Sequences
  import opened Bytes
  import opened Names
  import opened Wire
  import opened Lines
  import opened Tsig

  datatype Question = Question(labels: seq<Text>, kind: nat, class_: nat) {
    ghost predicate Fits() {
      WireLabels(labels)
    }

    ghost function Encoded(): Text
      requires Fits()
    {
      EncodeLabels(labels) + (U16(kind) + U16(class_))
    }
  }

  datatype ResourceRecord = ResourceRecord(labels: seq<Text>, kind: nat, class_: nat, ttl: Text, rdata: Text) {
    ghost predicate Fits() {
      WireLabels(labels) && |ttl| == 4 && |rdata| < 0x1_0000
    }

    ghost function Encoded(): Text
      requires Fits()
    {
      EncodeLabels(labels) + (U16(kind) + U16(class_) + ttl + (U16(|rdata|) + rdata))
    }
  }

  /** Bytes that encode a question. */
  ghost predicate IsQuestion(chunk: Text) {
    exists q: Question :: q.Fits() && chunk == q.Encoded()
  }

  /** Bytes that encode a record. */
  ghost predicate IsRecord(chunk: Text) {
    exists r: ResourceRecord :: r.Fits() && chunk == r.Encoded()
  }

  // ----- one question, one record -----

  lemma {:induction false} QuestionEnds(bytes: Text, at: nat, q: Question, rest: Text)
    requires q.Fits() && Reads(bytes, at, q.Encoded(), rest)
    ensures NameEnd(bytes, at).Ok? && NameEnd(bytes, at).value + 4 == at + |q.Encoded()|
    ensures at + |q.Encoded()| <= |bytes| && bytes[at + |q.Encoded()|..] == rest
  {
    var name, fields := EncodeLabels(q.labels), U16(q.kind) + U16(q.class_);
    Regroup(name, fields, rest);
    NameRoundTrip(bytes, at, q.labels, fields + rest);
    ReadChunk(bytes, at, q.Encoded(), rest);
  }

  lemma {:induction false} RecordEnds(bytes: Text, at: nat, r: ResourceRecord, rest: Text)
    requires r.Fits() && Reads(bytes, at, r.Encoded(), rest)
    ensures RecordEnd(bytes, at) == Ok(at + |r.Encoded()|)
    ensures at + |r.Encoded()| <= |bytes| && bytes[at + |r.Encoded()|..] == rest
  {
    var name, fixed, tail := EncodeLabels(r.labels), U16(r.kind) + U16(r.class_) + r.ttl, U16(|r.rdata|) + r.rdata;
    Regroup(name, fixed + tail, rest);
    NameRoundTrip(bytes, at, r.labels, fixed + tail + rest);
    ReadChunk(bytes, at, r.Encoded(), rest);
    LengthReads(bytes, at + |name|, fixed, r.rdata, rest);
  }

  /** The length of the record data, eight bytes behind the name. */
  lemma {:induction false} LengthReads(bytes: Text, p: nat, fixed: Text, rdata: Text, rest: Text)
    requires |fixed| == 8 && |rdata| < 0x1_0000 && p <= |bytes| && bytes[p..] == fixed + (U16(|rdata|) + rdata) + rest
    ensures U16At(bytes, p + 8) == Ok(|rdata|)
  {
    Regroup(fixed, U16(|rdata|) + rdata, rest);
    Regroup(U16(|rdata|), rdata, rest);
    ReadChunk(bytes, p, fixed, U16(|rdata|) + (rdata + rest));
    ReadU16(bytes, p + 8, |rdata|, rdata + rest);
  }

  // ----- sections -----

  /** A reader that skips one item. */
  type Skip = nat -> Result<nat, WireError>

  function SkipAll(skip: Skip, at: nat, n: nat): Result<nat, WireError>
    decreases n
  {
    if n == 0 then Ok(at)
    else
      var next :- skip(at);
      SkipAll(skip, next, n - 1)
  }

  /** The reader skips exactly the chunk, whatever follows it. */
  ghost predicate Skips(skip: Skip, bytes: Text, chunk: Text) {
    forall at: nat, rest :: Reads(bytes, at, chunk, rest) ==> skip(at) == Ok(at + |chunk|)
  }

  lemma {:induction false} FirstChunk(bytes: Text, at: nat, chunks: seq<Text>, rest: Text)
    requires chunks != [] && Reads(bytes, at, Concat(chunks), rest)
    ensures Reads(bytes, at, chunks[0], Concat(chunks[1..]) + rest)
    ensures Reads(bytes, at + |chunks[0]|, Concat(chunks[1..]), rest)
    ensures |Concat(chunks)| == |chunks[0]| + |Concat(chunks[1..])|
  {
    Regroup(chunks[0], Concat(chunks[1..]), rest);
    ReadChunk(bytes, at, chunks[0], Concat(chunks[1..]) + rest);
  }

  /** Chunks that are skipped one by one end where they end. */
  lemma {:induction false} AllSkipped(skip: Skip, bytes: Text, at: nat, chunks: seq<Text>, rest: Text)
    requires (forall i :: 0 <= i < |chunks| ==> Skips(skip, bytes, chunks[i])) && Reads(bytes, at, Concat(chunks), rest)
    ensures SkipAll(skip, at, |chunks|) == Ok(at + |Concat(chunks)|)
    decreases |chunks|
  {
    if chunks != [] {
      FirstChunk(bytes, at, chunks, rest);
      AllSkipped(skip, bytes, at + |chunks[0]|, chunks[1..], rest);
    }
  }

  function QuestionSkip(bytes: Text): Skip {
    (at: nat) => match NameEnd(bytes, at) case Ok(end) => Ok(end + 4) case Err(e) => Err(e)
  }

  function RecordSkip(bytes: Text): Skip {
    (at: nat) => RecordEnd(bytes, at)
  }

  lemma {:induction false} QuestionsAreSkipped(bytes: Text, at: nat, n: nat)
    ensures QuestionsEnd(bytes, at, n) == SkipAll(QuestionSkip(bytes), at, n)
    decreases n
  {
    if n > 0 && NameEnd(bytes, at).Ok? {
      QuestionsAreSkipped(bytes, NameEnd(bytes, at).value + 4, n - 1);
    }
  }

  lemma {:induction false} RecordsAreSkipped(bytes: Text, at: nat, n: nat)
    ensures RecordsEnd(bytes, at, n) == SkipAll(RecordSkip(bytes), at, n)
    decreases n
  {
    if n > 0 && RecordEnd(bytes, at).Ok? {
      RecordsAreSkipped(bytes, RecordEnd(bytes, at).value, n - 1);
    }
  }

  lemma {:induction false} QuestionSkips(bytes: Text, chunk: Text)
    requires IsQuestion(chunk)
    ensures Skips(QuestionSkip(bytes), bytes, chunk)
  {
    var q: Question :| q.Fits() && chunk == q.Encoded();
    forall at: nat, rest | Reads(bytes, at, chunk, rest) ensures QuestionSkip(bytes)(at) == Ok(at + |chunk|) {
      QuestionEnds(bytes, at, q, rest);
    }
  }

  lemma {:induction false} RecordSkips(bytes: Text, chunk: Text)
    requires IsRecord(chunk)
    ensures Skips(RecordSkip(bytes), bytes, chunk)
  {
    var r: ResourceRecord :| r.Fits() && chunk == r.Encoded();
    forall at: nat, rest | Reads(bytes, at, chunk, rest) ensures RecordSkip(bytes)(at) == Ok(at + |chunk|) {
      RecordEnds(bytes, at, r, rest);
    }
  }

  /** Questions end where they end, whatever follows. */
  lemma {:induction false} QuestionsEndThere(bytes: Text, at: nat, chunks: seq<Text>, rest: Text)
    requires (forall i :: 0 <= i < |chunks| ==> IsQuestion(chunks[i])) && Reads(bytes, at, Concat(chunks), rest)
    ensures QuestionsEnd(bytes, at, |chunks|) == Ok(at + |Concat(chunks)|)
  {
    forall i | 0 <= i < |chunks| ensures Skips(QuestionSkip(bytes), bytes, chunks[i]) {
      QuestionSkips(bytes, chunks[i]);
    }
    AllSkipped(QuestionSkip(bytes), bytes, at, chunks, rest);
    QuestionsAreSkipped(bytes, at, |chunks|);
  }

  /** Records end where they end, whatever follows. */
  lemma {:induction false} RecordsEndThere(bytes: Text, at: nat, chunks: seq<Text>, rest: Text)
    requires (forall i :: 0 <= i < |chunks| ==> IsRecord(chunks[i])) && Reads(bytes, at, Concat(chunks), rest)
    ensures RecordsEnd(bytes, at, |chunks|) == Ok(at + |Concat(chunks)|)
  {
    forall i | 0 <= i < |chunks| ensures Skips(RecordSkip(bytes), bytes, chunks[i]) {
      RecordSkips(bytes, chunks[i]);
    }
    AllSkipped(RecordSkip(bytes), bytes, at, chunks, rest);
    RecordsAreSkipped(bytes, at, |chunks|);
  }

  // ----- whole answers -----

  /** The header: id, flags, and how many questions, answers and authorities follow, with nothing additional. */
  ghost predicate HeaderIs(message: Text, id: nat, flags: nat, questions: nat, answers: nat, authorities: nat) {
    && |message| >= 12 && U16At(message, 0) == Ok(id) && U16At(message, 2) == Ok(flags) && U16At(message, 4) == Ok(questions)
    && U16At(message, 6) == Ok(answers) && U16At(message, 8) == Ok(authorities) && U16At(message, 10) == Ok(0)
  }

  ghost predicate AreSections(qs: seq<Text>, rs: seq<Text>) {
    (forall i :: 0 <= i < |qs| ==> IsQuestion(qs[i])) && (forall i :: 0 <= i < |rs| ==> IsRecord(rs[i]))
  }

  lemma {:induction false} SectionsEnd(message: Text, qs: seq<Text>, rs: seq<Text>) returns (at: nat)
    requires AreSections(qs, rs) && |message| >= 12
    requires message[12..] == Concat(qs) + Concat(rs)
    ensures QuestionsEnd(message, 12, |qs|) == Ok(at) && at <= |message|
    ensures RecordsEnd(message, at, |rs|) == Ok(|message|)
  {
    at := QuestionsPart(message, qs, Concat(rs));
    RecordsPart(message, at, rs);
  }

  lemma {:induction false} QuestionsPart(message: Text, qs: seq<Text>, rest: Text) returns (at: nat)
    requires (forall i :: 0 <= i < |qs| ==> IsQuestion(qs[i])) && Reads(message, 12, Concat(qs), rest)
    ensures QuestionsEnd(message, 12, |qs|) == Ok(at) && at <= |message| && message[at..] == rest
  {
    QuestionsEndThere(message, 12, qs, rest);
    ReadChunk(message, 12, Concat(qs), rest);
    at := 12 + |Concat(qs)|;
  }

  lemma {:induction false} RecordsPart(message: Text, at: nat, rs: seq<Text>)
    requires (forall i :: 0 <= i < |rs| ==> IsRecord(rs[i])) && at <= |message| && message[at..] == Concat(rs)
    ensures RecordsEnd(message, at, |rs|) == Ok(|message|)
  {
    assert Concat(rs) + [] == Concat(rs);
    RecordsEndThere(message, at, rs, []);
  }

  /** A response with RCODE 0 whose sections are these questions and these records is well formed. */
  lemma {:induction false} BuiltIsWellFormed(message: Text, id: nat, flags: nat, qs: seq<Text>, rs: seq<Text>,
                                             answers: nat)
    requires AreSections(qs, rs) && answers <= |rs|
    requires HeaderIs(message, id, flags, |qs|, answers, |rs| - answers) && flags >= 0x8000 && flags % 16 == 0
    requires message[12..] == Concat(qs) + Concat(rs)
    ensures WellFormedResponse(message)
  {
    var at := SectionsEnd(message, qs, rs);
    assert RecordsEnd(message, at, answers + (|rs| - answers)) == Ok(|message|);
  }

  /** Signed by the key for this request, such an answer is accepted while the clocks differ by at most 300 seconds. */
  lemma {:induction false} BuiltIsAccepted(key: Key, message: Text, id: nat, flags: nat, qs: seq<Text>,
                                           rs: seq<Text>, answers: nat, time: nat, requestMac: Text, now: nat)
    requires UsableKey(key) && AreSections(qs, rs) && answers <= |rs| && id < 0x1_0000
    requires HeaderIs(message, id, flags, |qs|, answers, |rs| - answers) && flags >= 0x8000 && flags % 16 == 0
    requires message[12..] == Concat(qs) + Concat(rs)
    requires time < 0x1_0000_0000_0000 && |requestMac| < 0x1_0000 && now - 300 <= time <= now + 300
    ensures var signed := SignWith(key, message, time, Some(requestMac));
      signed.Ok? && Accepts(key, signed.value.message, id, requestMac, now)
  {
    BuiltIsWellFormed(message, id, flags, qs, rs, answers);
    SignedIsAccepted(key, message, id, time, requestMac, now);
  }
}
