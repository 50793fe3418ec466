/**
 Reading a domain name step by step. What lies at an offset decides the next step: the root ends the name, a label
 is taken and the reader moves on, a pointer sends it elsewhere. Whether it ever arrives is a property of the steps
 alone, so this module knows nothing of bytes.
 */
module Names {
  import opened Wrappers
  import opened Bytes

  datatype WireError =
    | Truncated | LabelTooLong | UnknownLabelType | ForwardPointer | Endless | FieldTooLong | TimeTooLarge

  /** What a name reader meets at one offset. */
  datatype NameStep = Root | Bad(error: WireError) | Label(text: Text, next: nat) | Pointer(target: nat)

  type Steps = nat -> NameStep

  /** A reading that has ended, in labels or an error; none while it has not. */
  type Reading = Option<Result<seq<Text>, WireError>>

  function Behind(labels: seq<Text>, r: Reading): Reading {
    match r
    case Some(Ok(rest)) => Some(Ok(labels + rest))
    case _ => r
  }

  /** Reading from `at` for at most `n` steps. */
  function Labels(step: Steps, at: nat, n: nat): Reading
    decreases n
  {
    if n == 0 then None
    else
      match step(at)
      case Root => Some(Ok([]))
      case Bad(e) => Some(Err(e))
      case Label(text, next) => Behind([text], Labels(step, next, n - 1))
      case Pointer(target) => Labels(step, target, n - 1)
  }

  /** The offset a reading has come to after `k` labels and pointers. */
  function After(step: Steps, at: nat, k: nat): Option<nat>
    decreases k
  {
    if k == 0 then Some(at)
    else
      match step(at)
      case Label(_, next) => After(step, next, k - 1)
      case Pointer(target) => After(step, target, k - 1)
      case _ => None
  }

  /** The reading from `at` ends. */
  ghost predicate Ends(step: Steps, at: nat) {
    exists n :: Labels(step, at, n).Some?
  }

  /** Offsets from `size` on hold nothing to move on from. */
  ghost predicate Bounded(step: Steps, size: nat) {
    forall at: nat :: step(at).Label? || step(at).Pointer? ==> at < size
  }

  lemma {:induction false} LabelsAfter(step: Steps, at: nat, k: nat, n: nat)
    requires After(step, at, k).Some?
    ensures Labels(step, at, k + n).Some? <==> Labels(step, After(step, at, k).value, n).Some?
    decreases k
  {
    if k > 0 {
      match step(at)
      case Label(_, next) => LabelsAfter(step, next, k - 1, n);
      case Pointer(target) => LabelsAfter(step, target, k - 1, n);
    }
  }

  lemma {:induction false} NotEndedYet(step: Steps, at: nat, k: nat, n: nat)
    requires After(step, at, k).Some? && n <= k
    ensures Labels(step, at, n).None?
    decreases n
  {
    if n > 0 {
      match step(at)
      case Label(_, next) => NotEndedYet(step, next, k - 1, n - 1);
      case Pointer(target) => NotEndedYet(step, target, k - 1, n - 1);
    }
  }

  /** A reading that comes back to where it was never ends. */
  lemma {:induction false} BackIsEndless(step: Steps, at: nat, d: nat, n: nat)
    requires d > 0 && After(step, at, d) == Some(at)
    ensures Labels(step, at, n).None?
    decreases n
  {
    if n <= d {
      NotEndedYet(step, at, d, n);
    } else {
      LabelsAfter(step, at, d, n - d);
      BackIsEndless(step, at, d, n - d);
    }
  }

  /** While a reading has not ended, it stands at an offset inside. */
  lemma {:induction false} StillInside(step: Steps, size: nat, at: nat, k: nat, n: nat)
    requires Bounded(step, size) && Labels(step, at, n).None? && k < n
    ensures After(step, at, k).Some? && After(step, at, k).value < size
    decreases k
  {
    if k > 0 {
      match step(at)
      case Label(_, next) => StillInside(step, size, next, k - 1, n - 1);
      case Pointer(target) => StillInside(step, size, target, k - 1, n - 1);
    }
  }

  lemma {:induction false} AfterMore(step: Steps, at: nat, i: nat, d: nat)
    requires After(step, at, i).Some?
    ensures After(step, at, i + d) == After(step, After(step, at, i).value, d)
    decreases i
  {
    if i > 0 {
      match step(at)
      case Label(_, next) => AfterMore(step, next, i - 1, d);
      case Pointer(target) => AfterMore(step, target, i - 1, d);
    }
  }

  /** More numbers below `n` than there are hold one twice. */
  lemma {:induction false} Pigeonhole(s: seq<nat>, n: nat) returns (i: nat, j: nat)
    requires |s| > n && forall k :: 0 <= k < |s| ==> s[k] < n
    ensures i < j < |s| && s[i] == s[j]
    decreases n
  {
    var last := |s| - 1;
    if k :| 0 <= k < last && s[k] == s[last] {
      return k, last;
    }
    // The last number occurs once: let it stand in for n - 1, and the others lie below n - 1.
    var rest := seq(last, k requires 0 <= k < last => if s[k] == n - 1 then s[last] else s[k]);
    i, j := Pigeonhole(rest, n - 1);
  }

  /** The offsets of the first steps of a reading that goes on for longer than there are offsets. */
  lemma {:induction false} ComesBack(step: Steps, size: nat, at: nat) returns (i: nat, d: nat)
    requires Bounded(step, size) && Labels(step, at, size + 1).None?
    ensures d > 0 && After(step, at, i).Some?
    ensures After(step, After(step, at, i).value, d) == After(step, at, i)
  {
    forall k | 0 <= k <= size ensures After(step, at, k).Some? && After(step, at, k).value < size {
      StillInside(step, size, at, k, size + 1);
    }
    var visited := seq(size + 1, k requires 0 <= k <= size => After(step, at, k).value);
    var j;
    i, j := Pigeonhole(visited, size);
    d := j - i;
    AfterMore(step, at, i, d);
  }

  /** A reading that goes on for longer than there are offsets never ends. */
  lemma {:induction false} SoonOrNever(step: Steps, size: nat, at: nat, n: nat)
    requires Bounded(step, size) && Labels(step, at, size + 1).None?
    ensures Labels(step, at, n).None?
  {
    var i, d := ComesBack(step, size, at);
    if n <= i {
      NotEndedYet(step, at, i, n);
    } else {
      LabelsAfter(step, at, i, n - i);
      BackIsEndless(step, After(step, at, i).value, d, n - i);
    }
  }

  /** A reading ends exactly when it ends within one step more than there are offsets. */
  lemma {:induction false} EndsIff(step: Steps, size: nat, at: nat)
    requires Bounded(step, size)
    ensures Ends(step, at) <==> Labels(step, at, size + 1).Some?
  {
    if n :| Labels(step, at, n).Some? {
      if Labels(step, at, size + 1).None? {
        SoonOrNever(step, size, at, n);
      }
    }
  }

  /** It never ends exactly when it comes back to an offset it left. */
  lemma {:induction false} EndlessIff(step: Steps, size: nat, at: nat)
    requires Bounded(step, size)
    ensures !Ends(step, at) <==> exists i: nat, d: nat :: d > 0 && Revisits(step, at, i, d)
  {
    if !Ends(step, at) {
      var i, d := ComesBack(step, size, at);
      assert Revisits(step, at, i, d);
    }
    if i: nat, d: nat :| d > 0 && Revisits(step, at, i, d) {
      forall n: nat ensures Labels(step, at, n).None? {
        if n <= i {
          NotEndedYet(step, at, i, n);
        } else {
          LabelsAfter(step, at, i, n - i);
          BackIsEndless(step, After(step, at, i).value, d, n - i);
        }
      }
    }
  }

  /** After `i` steps the reading is where it is again `d` steps later. */
  ghost predicate Revisits(step: Steps, at: nat, i: nat, d: nat) {
    After(step, at, i).Some? && After(step, After(step, at, i).value, d) == After(step, at, i)
  }

  // ----- reading in a loop -----

  /** `labels` were read, and the rest of the reading goes on from `at` with `left` steps. */
  ghost predicate ReadTo(step: Steps, start: nat, total: nat, labels: seq<Text>, at: nat, left: nat) {
    Labels(step, start, total) == Behind(labels, Labels(step, at, left))
  }

  lemma {:induction false} NothingRead(step: Steps, start: nat, total: nat)
    ensures ReadTo(step, start, total, [], start, total)
  {
    var r := Labels(step, start, total);
    if r.Some? && r.value.Ok? {
      assert [] + r.value.value == r.value.value;
    }
  }

  lemma {:induction false} ReadLabel(step: Steps, start: nat, total: nat, labels: seq<Text>, at: nat, left: nat)
    requires ReadTo(step, start, total, labels, at, left) && left > 0 && step(at).Label?
    ensures ReadTo(step, start, total, labels + [step(at).text], step(at).next, left - 1)
  {
    var text, rest := step(at).text, Labels(step, step(at).next, left - 1);
    if rest.Some? && rest.value.Ok? {
      assert labels + ([text] + rest.value.value) == labels + [text] + rest.value.value;
    }
  }

  lemma {:induction false} ReadRoot(step: Steps, start: nat, total: nat, labels: seq<Text>, at: nat, left: nat)
    requires ReadTo(step, start, total, labels, at, left) && left > 0 && step(at).Root?
    ensures Labels(step, start, total) == Some(Ok(labels))
  {
    assert labels + [] == labels;
  }

  lemma {:induction false} NeverEndless(step: Steps, at: nat, n: nat)
    requires forall p: nat :: step(p) != Bad(Endless)
    ensures Labels(step, at, n) != Some(Err(Endless))
    decreases n
  {
    if n > 0 {
      match step(at)
      case Label(_, next) => NeverEndless(step, next, n - 1);
      case Pointer(target) => NeverEndless(step, target, n - 1);
      case _ =>
    }
  }
}
