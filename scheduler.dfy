/** The Leitner-style scheduler: folds a card's chronological review history into a
    spacing value and decides whether the card is due today.

    Dates are whole day numbers counted from 1970-01-01 and `today` is a parameter.
    The source keeps the spacing in a floating-point variable; here it is an exact
    real, and the lemmas show it is always a power of two, so the exponent alone
    describes it. */
module Scheduler {
  import opened Util

  /** chrono's first and last dates, -262144-01-01 and +262143-12-31, as day numbers.
      Every date the date parser returns lies between them. */
  const FirstDay := -96465659
  const LastDay := 95026601

  /** One review event: the day it happened and whether the card was remembered. */
  datatype Review = Review(day: int, remembered: bool)

  /** The loop state of the source: the spacing, the day of the previous event
      (chrono's first date before the first event) and whether a failure was
      registered that day. */
  datatype Spacing = Spacing(value: real, prev: int, failedToday: bool)

  /** The same state with the spacing written as 2^exp. */
  datatype Exponent = Exponent(exp: int, prev: int, failedToday: bool)

  const InitialSpacing := Spacing(0.5, FirstDay, false)
  const InitialExponent := Exponent(-1, FirstDay, false)

  /** One iteration of the source's loop body. */
  function SpacingStep(s: Spacing, e: Review): Spacing
  {
    if s.prev == e.day then
      if !s.failedToday && !e.remembered then Spacing(s.value * 0.25, s.prev, true) else s
    else if e.remembered then Spacing(s.value * 2.0, e.day, false)
    else Spacing(s.value * 0.5, e.day, true)
  }

  /** The loop over a history prefix, oldest event first. */
  function SpacingScan(h: seq<Review>): (s: Spacing)
    ensures s.value > 0.0
  {
    if h == [] then InitialSpacing else SpacingStep(SpacingScan(h[..|h| - 1]), h[|h| - 1])
  }

  /** The loop body on exponents: x2 is +1, x1/2 is -1, x1/4 is -2. */
  function ExponentStep(s: Exponent, e: Review): Exponent
  {
    if s.prev == e.day then
      if !s.failedToday && !e.remembered then Exponent(s.exp - 2, s.prev, true) else s
    else if e.remembered then Exponent(s.exp + 1, e.day, false)
    else Exponent(s.exp - 1, e.day, true)
  }

  function ExponentScan(h: seq<Review>): Exponent
  {
    if h == [] then InitialExponent else ExponentStep(ExponentScan(h[..|h| - 1]), h[|h| - 1])
  }

  /** 2^k for any integer k, as a real. */
  function Pow2Real(k: int): (r: real)
    ensures r > 0.0
    decreases if k < 0 then -k else k
  {
    if k == 0 then 1.0
    else if k > 0 then 2.0 * Pow2Real(k - 1)
    else Pow2Real(k + 1) / 2.0
  }

  /** `x.round()` for a non-negative x: halves round away from zero. */
  function Round(x: real): (n: int)
    requires x >= 0.0
    ensures n as real - 0.5 <= x < n as real + 0.5
  {
    (x + 0.5).Floor
  }

  /** The interval in days: `max(1, round(spacing))`. */
  function IntervalDays(spacing: real): (days: int)
    requires spacing >= 0.0
    ensures days >= 1
  {
    var r := Round(spacing);
    if r > 1 then r else 1
  }

  function Last(h: seq<Review>): Review
    requires h != []
  {
    h[|h| - 1]
  }

  /** `leitner` together with the date addition it ends with: an empty history or a
      forgotten last review is due; otherwise the card is due once the interval has
      passed since the last review, and the addition panics when that day lies past
      chrono's last date. (The cast of a spacing too large for an `i64` saturates and
      `Duration::days` panics from about 10^11 days on; for a review date the parser
      returns, both cases also lie past the last date.) */
  function Due(h: seq<Review>, today: int): Result<bool, Panic>
  {
    if h == [] || !Last(h).remembered then Ok(true)
    else
      var next := Last(h).day + IntervalDays(SpacingScan(h).value);
      if next > LastDay then Err(Panic) else Ok(next <= today)
  }

  /** `leitner`: the history is popped and pushed back, then scanned oldest first. */
  method Leitner(history: seq<Review>, today: int) returns (r: Result<bool, Panic>)
    ensures r == Due(history, today)
    ensures history == [] ==> r == Ok(true)
    ensures history != [] && !history[|history| - 1].remembered ==> r == Ok(true)
    ensures r.Err? ==> history != [] && history[|history| - 1].remembered
  {
    var h := history;
    if h == [] {
      return Ok(true);
    }
    var last := h[|h| - 1];
    h := h[..|h| - 1];
    h := h + [last];
    assert h == history;

    if last.remembered {
      var spacing := 0.5;
      var prevDate := FirstDay;
      var failureRegisteredToday := false;
      var i := 0;
      while i < |h|
        invariant 0 <= i <= |h|
        invariant Spacing(spacing, prevDate, failureRegisteredToday) == SpacingScan(h[..i])
      {
        assert h[..i + 1][..i] == h[..i];
        var event := h[i];
        if prevDate == event.day {
          if !failureRegisteredToday && !event.remembered {
            spacing := spacing * 0.25;
            failureRegisteredToday := true;
          }
        } else {
          prevDate := event.day;
          if event.remembered {
            spacing := spacing * 2.0;
            failureRegisteredToday := false;
          } else {
            spacing := spacing * 0.5;
            failureRegisteredToday := true;
          }
        }
        i := i + 1;
      }
      assert h[..|h|] == h;
      var next := last.day + IntervalDays(spacing);
      if next > LastDay {
        return Err(Panic);
      }
      r := Ok(next <= today);
    } else {
      r := Ok(true);
    }
  }

  lemma Pow2RealSucc(k: int)
    ensures Pow2Real(k + 1) == 2.0 * Pow2Real(k)
    decreases if k < 0 then -k else k
  {
    if k < 0 {
      assert Pow2Real(k) == Pow2Real(k + 1) / 2.0;
    }
  }

  /** The spacing is always 2^k: the real-valued fold and the exponent fold agree
      on every history, and so do the previous day and the failure flag. */
  lemma {:induction false} SpacingIsPowerOfTwo(h: seq<Review>)
    ensures SpacingScan(h).value == Pow2Real(ExponentScan(h).exp)
    ensures SpacingScan(h).prev == ExponentScan(h).prev
    ensures SpacingScan(h).failedToday == ExponentScan(h).failedToday
  {
    if h != [] {
      var p := h[..|h| - 1];
      SpacingIsPowerOfTwo(p);
      var k := ExponentScan(p).exp;
      Pow2RealSucc(k);
      Pow2RealSucc(k - 1);
      Pow2RealSucc(k - 2);
    }
  }

  lemma Pow2RealNat(k: nat)
    ensures Pow2Real(k) == Pow2(k) as real
  {
  }

  lemma {:induction false} Pow2RealNegative(k: int)
    requires k <= -1
    ensures Pow2Real(k) <= 0.5
    decreases -k
  {
    if k < -1 {
      Pow2RealNegative(k + 1);
    }
  }

  /** In the exponent model the interval is 2^k for k >= 0 and one day otherwise. */
  lemma {:induction false} IntervalOfPowerOfTwo(k: int)
    ensures IntervalDays(Pow2Real(k)) == if k >= 0 then Pow2(k) else 1
  {
    if k >= 0 {
      Pow2RealNat(k);
      assert Round(Pow2(k) as real) == Pow2(k);
    } else {
      Pow2RealNegative(k);
      var r := Round(Pow2Real(k));
      assert r <= 1;
    }
  }

  /** Due-ness in the exponent model: a remembered last review waits 2^k days when
      the exponent k is non-negative and one day otherwise, and the date addition
      panics when that wait ends past chrono's last date. */
  lemma {:induction false} DueInExponentModel(h: seq<Review>, today: int)
    requires h != [] && Last(h).remembered
    ensures Due(h, today) ==
            var k := ExponentScan(h).exp;
            var next := Last(h).day + (if k >= 0 then Pow2(k) else 1);
            if next > LastDay then Err(Panic) else Ok(next <= today)
  {
    SpacingIsPowerOfTwo(h);
    IntervalOfPowerOfTwo(ExponentScan(h).exp);
  }

  lemma {:induction false} Pow2Monotone(a: nat, b: nat)
    requires a <= b
    ensures Pow2(a) <= Pow2(b)
    decreases b
  {
    if a < b {
      Pow2Monotone(a, b - 1);
    }
  }

  lemma {:induction false} Pow2Add(a: nat, b: nat)
    ensures Pow2(a + b) == Pow2(a) * Pow2(b)
    decreases a
  {
    if a > 0 {
      Pow2Add(a - 1, b);
    }
  }

  /** For a review made between 1970-01-01 and the year 78000, the date addition
      panics exactly when the spacing has reached 2^27 days. */
  lemma {:induction false} OverflowFromExponent27(h: seq<Review>, today: int)
    requires h != [] && Last(h).remembered
    requires 0 <= Last(h).day <= 27917737
    ensures Due(h, today).Err? <==> ExponentScan(h).exp >= 27
  {
    DueInExponentModel(h, today);
    var k := ExponentScan(h).exp;
    assert Pow2(26) == 67108864 by {
      assert Pow2(13) == 8192;
      Pow2Add(13, 13);
    }
    assert Pow2(27) == 134217728 by {
      Pow2Add(1, 26);
    }
    if k >= 27 {
      Pow2Monotone(27, k);
    } else if k >= 0 {
      Pow2Monotone(k, 26);
    }
  }

  /** Due-ness is monotone in today: once due, due on every later day; whether the
      addition panics does not depend on today. */
  lemma DueIsMonotone(h: seq<Review>, today: int, later: int)
    requires today <= later
    ensures Due(h, today).Err? <==> Due(h, later).Err?
    ensures Due(h, today) == Ok(true) ==> Due(h, later) == Ok(true)
  {
  }

  /** A card remembered once on day d is not due on d and is due from d + 1 on. */
  lemma SingleRememberedReview(d: int, today: int)
    ensures Due([Review(d, true)], today) ==
            if d + 1 > LastDay then Err(Panic) else Ok(today >= d + 1)
  {
    var h := [Review(d, true)];
    assert h[..0] == [];
    if d == FirstDay {
      // chrono's first date is also the loop's initial previous day
      assert SpacingScan(h).value == 0.5;
      assert Round(0.5) == 1;
    } else {
      assert SpacingScan(h).value == 1.0;
      assert Round(1.0) == 1;
    }
  }

  predicate AllRemembered(es: seq<Review>)
  {
    forall j :: 0 <= j < |es| ==> es[j].remembered
  }

  predicate OnDay(es: seq<Review>, d: int)
  {
    forall j :: 0 <= j < |es| ==> es[j].day == d
  }

  /** The events of one new calendar day move the exponent by exactly +1 when all of
      them are remembered and by exactly -1 otherwise: a first forget costs x1/2, a
      forget after a remember on the same day costs x1/4 once, and every later event
      of that day changes nothing. */
  lemma {:induction false} OneDayEffect(h: seq<Review>, es: seq<Review>, d: int)
    requires ExponentScan(h).prev != d
    requires es != [] && OnDay(es, d)
    ensures ExponentScan(h + es).exp ==
            ExponentScan(h).exp + (if AllRemembered(es) then 1 else -1)
    ensures ExponentScan(h + es).prev == d
    ensures ExponentScan(h + es).failedToday == !AllRemembered(es)
  {
    var p := es[..|es| - 1];
    assert (h + es)[..|h + es| - 1] == h + p;
    if p == [] {
      assert h + p == h;
    } else {
      OneDayEffect(h, p, d);
      assert AllRemembered(es) == (AllRemembered(p) && es[|es| - 1].remembered);
    }
  }
}
