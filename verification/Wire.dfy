/** The byte-level pieces of DNS messages: big-endian numbers, names, and the cursor that reads them. */
module Wire {
  import opened Wrappers
  import opened Bytes
  import opened Records
  import opened Names

  const DOT: Byte := 46

  // ----- numbers -----

  function Pow256(k: nat): (p: nat)
    ensures p > 0
  {
    if k == 0 then 1 else 256 * Pow256(k - 1)
  }

  /** The last `k` bytes of `n`, most significant first. */
  function BigEndian(n: nat, k: nat): (r: Text)
    ensures |r| == k
    decreases k
  {
    if k == 0 then [] else BigEndian(n / 256, k - 1) + [n % 256]
  }

  function Number(bytes: Text): nat {
    if bytes == [] then 0 else Number(bytes[..|bytes| - 1]) * 256 + bytes[|bytes| - 1]
  }

  lemma {:induction false} NumberRoundTrip(n: nat, k: nat)
    requires n < Pow256(k)
    ensures Number(BigEndian(n, k)) == n
    decreases k
  {
    if k > 0 {
      NumberRoundTrip(n / 256, k - 1);
      assert BigEndian(n, k)[..k - 1] == BigEndian(n / 256, k - 1);
    }
  }

  lemma SmallPowers()
    ensures Pow256(2) == 0x1_0000 && Pow256(6) == 0x1_0000_0000_0000
  {
    assert Pow256(1) == 256 && Pow256(3) == 0x100_0000 && Pow256(4) == 0x1_0000_0000;
  }

  function U16(n: nat): (r: Text)
    ensures |r| == 2
  {
    BigEndian(n, 2)
  }

  function Slice(bytes: Text, at: nat, len: nat): Result<Text, WireError> {
    if at + len <= |bytes| then Ok(bytes[at..at + len]) else Err(Truncated)
  }

  function U16At(bytes: Text, at: nat): Result<nat, WireError> {
    var pair :- Slice(bytes, at, 2);
    Ok(Number(pair))
  }

  function U48At(bytes: Text, at: nat): Result<nat, WireError> {
    var six :- Slice(bytes, at, 6);
    Ok(Number(six))
  }

  function PutU16(bytes: Text, at: nat, n: nat): Text
    requires at + 2 <= |bytes|
  {
    bytes[..at] + U16(n) + bytes[at + 2..]
  }

  function Len16(len: nat): Result<nat, WireError> {
    if len < 0x1_0000 then Ok(len) else Err(FieldTooLong)
  }

  function Time48(seconds: nat): Result<Text, WireError> {
    if seconds < 0x1_0000_0000_0000 then Ok(BigEndian(seconds, 6)) else Err(TimeTooLarge)
  }

  // ----- reading what was appended -----

  /** From `at` on, `bytes` is `chunk` and then `rest`. */
  ghost predicate Reads(bytes: Text, at: nat, chunk: Text, rest: Text) {
    at <= |bytes| && bytes[at..] == chunk + rest
  }

  lemma ReadChunk(bytes: Text, at: nat, chunk: Text, rest: Text)
    requires Reads(bytes, at, chunk, rest)
    ensures Slice(bytes, at, |chunk|) == Ok(chunk)
    ensures at + |chunk| <= |bytes| && bytes[at + |chunk|..] == rest
  {
    assert bytes[at..][..|chunk|] == chunk && bytes[at..][|chunk|..] == rest;
    assert bytes[at..at + |chunk|] == bytes[at..][..|chunk|];
    assert bytes[at + |chunk|..] == bytes[at..][|chunk|..];
  }

  lemma ReadU16(bytes: Text, at: nat, n: nat, rest: Text)
    requires n < 0x1_0000 && Reads(bytes, at, U16(n), rest)
    ensures U16At(bytes, at) == Ok(n)
    ensures at + 2 <= |bytes| && bytes[at + 2..] == rest
  {
    ReadChunk(bytes, at, U16(n), rest);
    SmallPowers();
    NumberRoundTrip(n, 2);
  }

  lemma {:induction false} ReadTime(bytes: Text, at: nat, t: nat, rest: Text)
    requires t < 0x1_0000_0000_0000 && Reads(bytes, at, BigEndian(t, 6), rest)
    ensures U48At(bytes, at) == Ok(t)
    ensures at + 6 <= |bytes| && bytes[at + 6..] == rest
  {
    ReadChunk(bytes, at, BigEndian(t, 6), rest);
    SmallPowers();
    NumberRoundTrip(t, 6);
  }

  // ----- names -----

  function JoinLabels(labels: seq<Text>): Text {
    if labels == [] then [] else if |labels| == 1 then labels[0] else labels[0] + [DOT] + JoinLabels(labels[1..])
  }

  lemma {:induction false} JoinSplit(name: Text)
    ensures JoinLabels(Split(name, DOT)) == name
  {
    if name != [] {
      JoinSplit(name[1..]);
      var rest := Split(name[1..], DOT);
      if name[0] == DOT {
        assert ([[]] + rest)[1..] == rest;
      } else {
        var labels := Split(name, DOT);
        assert labels[0] == [name[0]] + rest[0] && labels[1..] == rest[1..];
        if |rest| > 1 {
          assert name == [name[0]] + (rest[0] + [DOT] + JoinLabels(rest[1..]));
        }
      }
    }
  }

  predicate LabelsFit(labels: seq<Text>, max: nat) {
    forall i :: 0 <= i < |labels| ==> |labels[i]| <= max
  }

  /** Each label behind its length, then the root. */
  function EncodeLabels(labels: seq<Text>): (r: Text)
    requires LabelsFit(labels, 255)
    ensures |r| > 0
  {
    if labels == [] then [0] else [|labels[0]|] + labels[0] + EncodeLabels(labels[1..])
  }

  function EncodeName(name: Text): Result<Text, WireError> {
    var labels := Split(name, DOT);
    if LabelsFit(labels, 255) then Ok(EncodeLabels(labels)) else Err(LabelTooLong)
  }

  /** Computes `EncodeName` behind what is there already. */
  method AppendName(name: Text, out: Text) returns (r: Result<Text, WireError>)
    ensures r == match EncodeName(name) case Ok(bytes) => Ok(out + bytes) case Err(e) => Err(e)
  {
    var labels := Split(name, DOT);
    var bytes := out;
    for i := 0 to |labels|
      invariant LabelsFit(labels[..i], 255)
      invariant LabelsFit(labels, 255) ==> bytes + EncodeLabels(labels[i..]) == out + EncodeLabels(labels)
    {
      if |labels[i]| > 255 {
        return Err(LabelTooLong);
      }
      assert labels[i..][0] == labels[i] && labels[i..][1..] == labels[i + 1..];
      bytes := bytes + [|labels[i]|] + labels[i];
    }
    assert labels[|labels|..] == [] && labels[..|labels|] == labels;
    return Ok(bytes + [0]);
  }

  /** The offset after a possibly compressed name. */
  function NameEnd(bytes: Text, at: nat): Result<nat, WireError>
    decreases |bytes| - at
  {
    if at >= |bytes| then Err(Truncated)
    else if bytes[at] == 0 then Ok(at + 1)
    else if bytes[at] >= 0xc0 then if at + 2 <= |bytes| then Ok(at + 2) else Err(Truncated)
    else if bytes[at] >= 0x40 then Err(UnknownLabelType)
    else NameEnd(bytes, at + 1 + bytes[at])
  }

  method SkipName(bytes: Text, start: nat) returns (r: Result<nat, WireError>)
    ensures r == NameEnd(bytes, start)
  {
    var at := start;
    while at < |bytes|
      invariant NameEnd(bytes, at) == NameEnd(bytes, start)
      decreases |bytes| - at
    {
      var len := bytes[at];
      if len == 0 {
        return Ok(at + 1);
      }
      if len >= 0xc0 {
        var pointer := Slice(bytes, at, 2);
        return if pointer.Ok? then Ok(at + 2) else Err(pointer.error);
      }
      if len >= 0x40 {
        return Err(UnknownLabelType);
      }
      at := at + 1 + len;
    }
    return Err(Truncated);
  }

  /** The offset after one resource record. */
  function RecordEnd(bytes: Text, at: nat): Result<nat, WireError> {
    var name :- NameEnd(bytes, at);
    var rdlen :- U16At(bytes, name + 8);
    var end := name + 10 + rdlen;
    if end > |bytes| then Err(Truncated) else Ok(end)
  }

  method SkipRecord(bytes: Text, start: nat) returns (r: Result<nat, WireError>)
    ensures r == RecordEnd(bytes, start)
  {
    var name := SkipName(bytes, start);
    if name.Err? {
      return Err(name.error);
    }
    var at := name.value + 8;
    var rdlen := U16At(bytes, at);
    if rdlen.Err? {
      return Err(rdlen.error);
    }
    var end := at + 2 + rdlen.value;
    return if end > |bytes| then Err(Truncated) else Ok(end);
  }

  // ----- names with compression pointers -----

  /** What lies at an offset of a message; a pointer must point backwards. */
  function StepAt(bytes: Text, at: nat): NameStep {
    if at >= |bytes| then Bad(Truncated)
    else if bytes[at] == 0 then Root
    else if bytes[at] >= 0xc0 then
      (match U16At(bytes, at)
       case Err(e) => Bad(e)
       case Ok(n) => if n % 0x4000 >= at then Bad(ForwardPointer) else Pointer(n % 0x4000))
    else if bytes[at] >= 0x40 then Bad(UnknownLabelType)
    else
      match Slice(bytes, at + 1, bytes[at])
      case Err(e) => Bad(e)
      case Ok(text) => Label(text, at + 1 + bytes[at])
  }

  function StepsOf(bytes: Text): Steps {
    (at: nat) => StepAt(bytes, at)
  }

  lemma StepsAreBounded(bytes: Text)
    ensures Bounded(StepsOf(bytes), |bytes|)
    ensures forall at: nat :: StepsOf(bytes)(at) != Bad(Endless)
  {
  }

  /** Backward pointers alone do not make a reading end: a label in front of a pointer to itself is read for ever. */
  lemma {:induction false} BackwardPointersLoop(head: Text)
    requires |head| == 12
    ensures !Ends(StepsOf(head + [1, 97, 0xc0, 12]), 12)
  {
    var bytes: Text := head + [1, 97, 0xc0, 12];
    var step := StepsOf(bytes);
    assert bytes[14..16] == [0xc0, 12] && bytes[14..16][..1] == [0xc0];
    assert Number([0xc0]) == 0xc0 && U16At(bytes, 14) == Ok(0xc00c);
    assert step(14) == Pointer(12) && bytes[13..14] == [97] && step(12) == Label([97], 14);
    assert After(step, 14, 1) == Some(12);
    forall n: nat ensures Labels(step, 12, n).None? {
      BackIsEndless(step, 12, 2, n);
    }
  }

  datatype NameAt = NameAt(labels: seq<Text>, end: nat)

  /** The labels of a name and the offset behind it; `Endless` when reading it never ends. */
  function LabelsAt(bytes: Text, at: nat): Result<NameAt, WireError> {
    match Labels(StepsOf(bytes), at, |bytes| + 1)
    case None => Err(Endless)
    case Some(Err(e)) => Err(e)
    case Some(Ok(labels)) =>
      var end :- NameEnd(bytes, at);
      Ok(NameAt(labels, end))
  }

  /** A name that reads also has an end, and starts inside the message. */
  lemma {:induction false} ReadNameHasEnd(bytes: Text, at: nat, n: nat)
    requires Labels(StepsOf(bytes), at, n).Some? && Labels(StepsOf(bytes), at, n).value.Ok?
    ensures at < |bytes| && NameEnd(bytes, at).Ok?
    decreases n
  {
    match StepsOf(bytes)(at)
    case Label(_, next) => ReadNameHasEnd(bytes, next, n - 1);
    case Pointer(_) =>
    case Root =>
  }

  /** What the steps of a reading say about the end of the name. */
  lemma {:induction false} EndOfStep(bytes: Text, at: nat)
    ensures match StepAt(bytes, at)
      case Root => NameEnd(bytes, at) == Ok(at + 1)
      case Label(_, next) => NameEnd(bytes, at) == NameEnd(bytes, next)
      case Pointer(_) => NameEnd(bytes, at) == Ok(at + 2)
      case Bad(_) => true
  {
  }

  /** Looks at one offset. */
  method ReadStep(bytes: Text, at: nat) returns (s: NameStep)
    ensures s == StepAt(bytes, at)
  {
    if at >= |bytes| {
      return Bad(Truncated);
    }
    var len := bytes[at];
    if len == 0 {
      return Root;
    }
    if len >= 0xc0 {
      var pointer := U16At(bytes, at);
      if pointer.Err? {
        return Bad(pointer.error);
      }
      var target := pointer.value % 0x4000;
      return if target >= at then Bad(ForwardPointer) else Pointer(target);
    }
    if len >= 0x40 {
      return Bad(UnknownLabelType);
    }
    var text := Slice(bytes, at + 1, len);
    return if text.Ok? then Label(text.value, at + 1 + len) else Bad(text.error);
  }

  /**
   How far the reading of the name at `start` has come: `labels` were taken, it goes on at `at` for `left` steps,
   and `end` was noted at the first pointer.
   */
  ghost predicate Reader(bytes: Text, start: nat, labels: seq<Text>, at: nat, left: nat, end: Option<nat>) {
    && ReadTo(StepsOf(bytes), start, |bytes| + 1, labels, at, left)
    && NameEnd(bytes, start) == if end.Some? then Ok(end.value) else NameEnd(bytes, at)
  }

  function EndOr(end: Option<nat>, at: nat): nat {
    if end.Some? then end.value else at
  }

  lemma {:induction false} ReaderStarts(bytes: Text, start: nat)
    ensures Reader(bytes, start, [], start, |bytes| + 1, None)
  {
    NothingRead(StepsOf(bytes), start, |bytes| + 1);
  }

  lemma {:induction false} ReaderTakes(bytes: Text, start: nat, labels: seq<Text>, at: nat, left: nat, end: Option<nat>)
    requires Reader(bytes, start, labels, at, left, end) && left > 0 && StepAt(bytes, at).Label?
    ensures Reader(bytes, start, labels + [StepAt(bytes, at).text], StepAt(bytes, at).next, left - 1, end)
  {
    assert StepsOf(bytes)(at) == StepAt(bytes, at);
    ReadLabel(StepsOf(bytes), start, |bytes| + 1, labels, at, left);
    EndOfStep(bytes, at);
  }

  lemma {:induction false} ReaderArrives(bytes: Text, start: nat, labels: seq<Text>, at: nat, left: nat, end: Option<nat>)
    requires Reader(bytes, start, labels, at, left, end) && left > 0 && StepAt(bytes, at).Root?
    ensures LabelsAt(bytes, start) == Ok(NameAt(labels, EndOr(end, at + 1)))
  {
    assert StepsOf(bytes)(at) == StepAt(bytes, at);
    ReadRoot(StepsOf(bytes), start, |bytes| + 1, labels, at, left);
    EndOfStep(bytes, at);
  }

  /** Reads a name label by label, following pointers; `Endless` stands for a reading that never returns. */
  method ReadName(bytes: Text, start: nat) returns (r: Result<(Text, nat), WireError>)
    ensures match LabelsAt(bytes, start) case Ok(n) => r == Ok((JoinLabels(n.labels), n.end)) case Err(e) => r == Err(e)
    ensures r == Err(Endless) <==> !Ends(StepsOf(bytes), start)
  {
    EndlessIsReported(bytes, start);
    ReaderStarts(bytes, start);
    var labels: seq<Text> := [];
    var at: nat, end: Option<nat> := start, None;
    for steps := 0 to |bytes| + 1
      invariant Reader(bytes, start, labels, at, |bytes| + 1 - steps, end)
    {
      ghost var left := |bytes| + 1 - steps;
      var s := ReadStep(bytes, at);
      match s
      case Root =>
        ReaderArrives(bytes, start, labels, at, left, end);
        return Ok((JoinLabels(labels), EndOr(end, at + 1)));
      case Bad(e) =>
        return Err(e);
      case Label(text, next) =>
        ReaderTakes(bytes, start, labels, at, left, end);
        labels, at := labels + [text], next;
      case Pointer(target) =>
        end, at := Some(EndOr(end, at + 2)), target;
    }
    return Err(Endless);
  }

  /** `Endless` is exactly the answer for a name whose reading never ends. */
  lemma {:induction false} EndlessIsReported(bytes: Text, start: nat)
    ensures LabelsAt(bytes, start) == Err(Endless) <==> !Ends(StepsOf(bytes), start)
  {
    StepsAreBounded(bytes);
    NeverEndless(StepsOf(bytes), start, |bytes| + 1);
    EndsIff(StepsOf(bytes), |bytes|, start);
    NameEndNotEndless(bytes, start);
  }

  lemma {:induction false} NameEndNotEndless(bytes: Text, at: nat)
    ensures NameEnd(bytes, at) != Err(Endless)
    decreases |bytes| - at
  {
    if at < |bytes| && 0 < bytes[at] < 0x40 {
      NameEndNotEndless(bytes, at + 1 + bytes[at]);
    }
  }

  /** Labels that mean themselves on the wire: not empty, and short enough not to look like a pointer. */
  ghost predicate WireLabels(labels: seq<Text>) {
    forall i :: 0 <= i < |labels| ==> 0 < |labels[i]| <= 63
  }

  lemma {:induction false} LabelsReadBack(bytes: Text, at: nat, labels: seq<Text>, rest: Text, n: nat)
    requires WireLabels(labels) && LabelsFit(labels, 255) && Reads(bytes, at, EncodeLabels(labels), rest) && |labels| < n
    ensures Labels(StepsOf(bytes), at, n) == Some(Ok(labels))
    decreases |labels|
  {
    if labels == [] {
      assert bytes[at] == bytes[at..][0] == 0;
    } else {
      FirstLabelReads(bytes, at, labels, rest);
      LabelsReadBack(bytes, at + 1 + |labels[0]|, labels[1..], rest, n - 1);
      assert labels == [labels[0]] + labels[1..];
    }
  }

  lemma {:induction false} FirstLabelReads(bytes: Text, at: nat, labels: seq<Text>, rest: Text)
    requires labels != [] && LabelsFit(labels, 255) && Reads(bytes, at, EncodeLabels(labels), rest)
    ensures at < |bytes| && bytes[at] == |labels[0]| && Slice(bytes, at + 1, |labels[0]|) == Ok(labels[0])
    ensures LabelsFit(labels[1..], 255) && Reads(bytes, at + 1 + |labels[0]|, EncodeLabels(labels[1..]), rest)
  {
    LabelThenMore(bytes, at, labels[0], EncodeLabels(labels[1..]), rest);
  }

  lemma {:induction false} NameEndReadsBack(bytes: Text, at: nat, labels: seq<Text>, rest: Text)
    requires WireLabels(labels) && LabelsFit(labels, 255) && Reads(bytes, at, EncodeLabels(labels), rest)
    ensures NameEnd(bytes, at) == Ok(at + |EncodeLabels(labels)|)
    decreases |labels|
  {
    if labels == [] {
      assert bytes[at] == bytes[at..][0] == 0;
    } else {
      FirstLabelReads(bytes, at, labels, rest);
      NameEndReadsBack(bytes, at + 1 + |labels[0]|, labels[1..], rest);
    }
  }

  lemma {:induction false} LongerThanLabels(labels: seq<Text>)
    requires LabelsFit(labels, 255)
    ensures |labels| < |EncodeLabels(labels)|
  {
    if labels != [] {
      LongerThanLabels(labels[1..]);
    }
  }

  /** What `EncodeLabels` appends is what both readers find. */
  lemma {:induction false} NameRoundTrip(bytes: Text, at: nat, labels: seq<Text>, rest: Text)
    requires WireLabels(labels) && LabelsFit(labels, 255) && Reads(bytes, at, EncodeLabels(labels), rest)
    ensures var end := at + |EncodeLabels(labels)|;
      && end <= |bytes| && bytes[end..] == rest
      && LabelsAt(bytes, at) == Ok(NameAt(labels, end)) && NameEnd(bytes, at) == Ok(end)
  {
    LongerThanLabels(labels);
    ReadChunk(bytes, at, EncodeLabels(labels), rest);
    LabelsReadBack(bytes, at, labels, rest, |bytes| + 1);
    NameEndReadsBack(bytes, at, labels, rest);
  }

  lemma LabelThenMore(bytes: Text, at: nat, first: Text, more: Text, rest: Text)
    requires |first| <= 255 && Reads(bytes, at, [|first|] + first + more, rest)
    ensures at < |bytes| && bytes[at] == |first| && Slice(bytes, at + 1, |first|) == Ok(first)
    ensures Reads(bytes, at + 1 + |first|, more, rest)
  {
    assert [|first|] + first + more + rest == [|first|] + (first + (more + rest));
    assert bytes[at] == bytes[at..][0];
    ReadChunk(bytes, at, [|first|], first + (more + rest));
    ReadChunk(bytes, at + 1, first, more + rest);
  }

  // ----- what does not change when bytes are appended -----

  /** `b` continues `a`, but for bytes before `from`. */
  ghost predicate Continues(a: Text, b: Text, from: nat) {
    |a| <= |b| && forall i :: from <= i < |a| ==> a[i] == b[i]
  }

  lemma {:induction false} NameEndContinues(a: Text, b: Text, from: nat, at: nat)
    requires Continues(a, b, from) && from <= at && NameEnd(a, at).Ok?
    ensures NameEnd(b, at) == NameEnd(a, at) && at < NameEnd(a, at).value <= |a|
    decreases |a| - at
  {
    if 0 < a[at] < 0x40 {
      NameEndContinues(a, b, from, at + 1 + a[at]);
    }
  }

  lemma SliceContinues(a: Text, b: Text, from: nat, at: nat, len: nat)
    requires Continues(a, b, from) && from <= at && at + len <= |a|
    ensures Slice(b, at, len) == Slice(a, at, len)
  {
    assert a[at..at + len] == b[at..at + len];
  }

  lemma RecordEndContinues(a: Text, b: Text, from: nat, at: nat)
    requires Continues(a, b, from) && from <= at && RecordEnd(a, at).Ok?
    ensures RecordEnd(b, at) == RecordEnd(a, at) && at < RecordEnd(a, at).value <= |a|
  {
    NameEndContinues(a, b, from, at);
    SliceContinues(a, b, from, NameEnd(a, at).value + 8, 2);
  }
}
