/**
 When a certificate is due for renewal: two thirds of its lifetime, or the start of the window the CA
 suggests (section 4.2 of RFC 9773). Times are 64-bit, with the saturating arithmetic of the source.
 */
module Schedule {
  import opened Wrappers

  const I64_MIN: int := -0x8000_0000_0000_0000
  const I64_MAX: int := 0x7fff_ffff_ffff_ffff

  type I64 = n: int | -0x8000_0000_0000_0000 <= n <= 0x7fff_ffff_ffff_ffff

  function Saturate(n: int): I64 {
    if n < I64_MIN then I64_MIN else if n > I64_MAX then I64_MAX else n
  }

  datatype Window = Window(start: I64, end: I64)

  /** Elapsed time in whole percent, cut off at both ends; 100 for a lifetime that is not positive. */
  function PercentUsed(notBefore: I64, notAfter: I64, now: I64): (p: int)
    ensures 0 <= p <= 100
  {
    if notAfter <= notBefore then 100
    else
      var since := Saturate(now - notBefore);
      var elapsed := if since < 0 then 0 else since;
      var used := elapsed * 100 / (notAfter - notBefore);
      if used > 100 then 100 else if used < 0 then 0 else used
  }

  predicate ShouldRenew(notBefore: I64, notAfter: I64, now: I64) {
    PercentUsed(notBefore, notAfter, now) >= 66
  }

  predicate ShouldRenewInWindow(notBefore: I64, notAfter: I64, now: I64, window: Option<Window>) {
    match window
    case None => PercentUsed(notBefore, notAfter, now) >= 66
    case Some(w) => now >= w.start || PercentUsed(notBefore, notAfter, now) >= 66
  }

  /** 66 percent of the seconds, rounded up. */
  function TwoThirds(notBefore: I64, notAfter: I64): int {
    ((notAfter - notBefore) * 66 + 99) / 100
  }

  /** The instant a certificate first becomes due. */
  function DueAt(notBefore: I64, notAfter: I64, window: Option<Window>): I64 {
    if notAfter <= notBefore then I64_MIN
    else
      var offset := TwoThirds(notBefore, notAfter);
      var due := Saturate(notBefore + if offset > I64_MAX then I64_MAX else offset);
      match window
      case Some(w) => if w.start < due then w.start else due
      case None => due
  }

  // ----- rounding down on one side, up on the other -----

  lemma MulAtLeast(b: int, q: int, k: int)
    requires b > 0 && q >= k
    ensures b * q >= b * k
  {
  }

  /** A quotient reaches 66 exactly when the dividend reaches 66 divisors. */
  lemma QuotientReaches(a: int, b: int)
    requires b > 0 && a >= 0
    ensures a / b >= 66 <==> a >= 66 * b
  {
    var q := a / b;
    assert a == b * q + a % b && 0 <= a % b < b;
    if q >= 66 {
      MulAtLeast(b, q, 66);
    } else {
      MulAtLeast(b, 65, q);
    }
  }

  /** The percentage reaches 66 exactly when the elapsed time, as far as 64 bits hold it, reaches two thirds. */
  lemma UsedReaches(notBefore: I64, notAfter: I64, now: I64)
    requires notBefore < notAfter
    ensures ShouldRenew(notBefore, notAfter, now) <==> Saturate(now - notBefore) >= TwoThirds(notBefore, notAfter)
  {
    var total := notAfter - notBefore;
    var since := Saturate(now - notBefore);
    var elapsed := if since < 0 then 0 else since;
    QuotientReaches(elapsed * 100, total);
    assert TwoThirds(notBefore, notAfter) > 0;
    assert elapsed * 100 >= 66 * total <==> elapsed >= TwoThirds(notBefore, notAfter);
  }

  /** Renewal is due once 66 hundredths of the lifetime are over, and at once for a lifetime that is not positive. */
  lemma RenewsAtTwoThirds(notBefore: I64, notAfter: I64, now: I64)
    ensures ShouldRenew(notBefore, notAfter, now) <==>
      || notAfter <= notBefore
      || 100 * (if now - notBefore <= 0x7fff_ffff_ffff_ffff then now - notBefore else 0x7fff_ffff_ffff_ffff)
           >= 66 * (notAfter - notBefore)
  {
    if notBefore < notAfter {
      UsedReaches(notBefore, notAfter, now);
      var since: int, total: int := Saturate(now - notBefore), notAfter - notBefore;
      assert since >= TwoThirds(notBefore, notAfter) <==> 100 * since >= 66 * total;
      assert now - notBefore < I64_MIN ==> 100 * since < 66 * total && 100 * (now - notBefore) < 66 * total;
    }
  }

  /** The renewal predicate turns true exactly at `DueAt`. */
  ghost predicate DueAtIsThreshold(notBefore: I64, notAfter: I64, window: Option<Window>) {
    forall now: I64 :: ShouldRenewInWindow(notBefore, notAfter, now, window) <==> now >= DueAt(notBefore, notAfter, window)
  }

  /** A broken lifetime, two thirds that fit 64 bits, or a window that opens before the overflow bites. */
  predicate Representable(notBefore: I64, notAfter: I64, window: Option<Window>) {
    || notAfter <= notBefore
    || TwoThirds(notBefore, notAfter) <= I64_MAX
    || (window.Some? && window.value.start <= notBefore + I64_MAX)
  }

  lemma RepresentableSuffices(notBefore: I64, notAfter: I64, window: Option<Window>, now: I64)
    requires Representable(notBefore, notAfter, window)
    ensures ShouldRenewInWindow(notBefore, notAfter, now, window) <==> now >= DueAt(notBefore, notAfter, window)
  {
    if notBefore < notAfter {
      UsedReaches(notBefore, notAfter, now);
    }
  }

  /** When two thirds overflow, the predicate is still false at the instant `DueAt` names. */
  lemma OverflowIsNeverDue(notBefore: I64, notAfter: I64, window: Option<Window>)
    requires !Representable(notBefore, notAfter, window)
    ensures !ShouldRenewInWindow(notBefore, notAfter, DueAt(notBefore, notAfter, window), window)
  {
    UsedReaches(notBefore, notAfter, DueAt(notBefore, notAfter, window));
  }

  /** `DueAt` is the exact renewal threshold if and only if the instant is representable. */
  lemma DueAtIff(notBefore: I64, notAfter: I64, window: Option<Window>)
    ensures DueAtIsThreshold(notBefore, notAfter, window) <==> Representable(notBefore, notAfter, window)
  {
    if Representable(notBefore, notAfter, window) {
      forall now: I64
        ensures ShouldRenewInWindow(notBefore, notAfter, now, window) <==> now >= DueAt(notBefore, notAfter, window)
      {
        RepresentableSuffices(notBefore, notAfter, window, now);
      }
    } else {
      OverflowIsNeverDue(notBefore, notAfter, window);
    }
  }

  /** A lifetime of at most `i64::MAX` seconds is always representable. */
  lemma OrdinaryLifetimes(notBefore: I64, notAfter: I64, window: Option<Window>)
    requires notAfter - notBefore <= I64_MAX
    ensures DueAtIsThreshold(notBefore, notAfter, window)
  {
    DueAtIff(notBefore, notAfter, window);
  }

  /** The longest lifetime: two thirds of it overflow, and it is never found due. */
  lemma LongestLifetimeIsNotDue()
    ensures !DueAtIsThreshold(I64_MIN, I64_MAX, None)
  {
    DueAtIff(I64_MIN, I64_MAX, None);
  }

  // ----- deciding with the CA's answer -----

  datatype FetchError = Unsupported | Other(why: string)

  /** A server without renewal information falls back to the lifetime rule; any other error is returned. */
  function DecideRenewal(fetched: Result<Window, FetchError>, notBefore: I64, notAfter: I64, now: I64): Result<bool, FetchError> {
    match fetched
    case Ok(w) => Ok(ShouldRenewInWindow(notBefore, notAfter, now, Some(w)))
    case Err(Unsupported) => Ok(ShouldRenew(notBefore, notAfter, now))
    case Err(e) => Err(e)
  }

  /** The window a fetched answer stands for; none when the answer is an error to return. */
  function WindowOf(fetched: Result<Window, FetchError>): Option<Option<Window>> {
    match fetched
    case Ok(w) => Some(Some(w))
    case Err(Unsupported) => Some(None)
    case Err(Other(_)) => None
  }

  /** At this instant the decision is whether the due instant, for the window the CA gave, has come. */
  ghost predicate DecidesByDueAt(fetched: Result<Window, FetchError>, notBefore: I64, notAfter: I64, now: I64) {
    match WindowOf(fetched)
    case Some(window) => DecideRenewal(fetched, notBefore, notAfter, now) == Ok(now >= DueAt(notBefore, notAfter, window))
    case None => fetched.Err? && DecideRenewal(fetched, notBefore, notAfter, now) == Err(fetched.error)
  }

  /** The decision agrees with the due instant at all times exactly when that instant is representable. */
  lemma DecisionAgrees(fetched: Result<Window, FetchError>, notBefore: I64, notAfter: I64)
    ensures (forall now: I64 :: DecidesByDueAt(fetched, notBefore, notAfter, now))
       <==> (WindowOf(fetched).Some? ==> Representable(notBefore, notAfter, WindowOf(fetched).value))
  {
    if WindowOf(fetched).Some? {
      var window := WindowOf(fetched).value;
      if Representable(notBefore, notAfter, window) {
        forall now: I64 ensures DecidesByDueAt(fetched, notBefore, notAfter, now) {
          RepresentableSuffices(notBefore, notAfter, window, now);
        }
      } else {
        OverflowIsNeverDue(notBefore, notAfter, window);
        assert !DecidesByDueAt(fetched, notBefore, notAfter, DueAt(notBefore, notAfter, window));
      }
    }
  }
}
