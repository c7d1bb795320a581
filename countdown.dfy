/**
 * The pure part of `countdown_time` (src/events.rs): splitting the whole
 * seconds left until the anniversary into days, hours, minutes and seconds,
 * the display text, and the milestone gate that decides when a notification
 * is due. The remaining time is an input: chrono's whole-second count of
 * `target - now`, which is negative exactly when the target has passed.
 */
module Countdown {
  import opened Wrappers

  /** Shown once the target instant has passed. */
  const TerminalText: string := "Esperanza en la Ciudad"
  /** Between the day count and the clock. */
  const DaysSeparator: string := " días, "

  datatype Parts = Parts(days: nat, hours: nat, minutes: nat, seconds: nat)

  lemma DayModHour(t: nat)
    ensures (t % 86_400) % 3600 == t % 3600
  {
    var q, r := t / 86_400, t % 86_400;
    var h, r' := r / 3600, r % 3600;
    assert t == 86_400 * q + r && 0 <= r < 86_400;
    assert r == 3600 * h + r' && 0 <= r' < 3600;
    assert t == 3600 * (24 * q + h) + r';
  }

  lemma HourModMinute(t: nat)
    ensures (t % 3600) % 60 == t % 60
  {
    var q, r := t / 3600, t % 3600;
    var m, r' := r / 60, r % 60;
    assert t == 3600 * q + r && 0 <= r < 3600;
    assert r == 60 * m + r' && 0 <= r' < 60;
    assert t == 60 * (60 * q + m) + r';
  }

  /**
   * The four `/` and `%` of `countdown_time`, on a non-negative total: the parts
   * add back up to the total and each below-day part is within its clock range.
   */
  function Decompose(total: nat): (p: Parts)
    ensures p.days * 86_400 + p.hours * 3600 + p.minutes * 60 + p.seconds == total
    ensures p.hours < 24 && p.minutes < 60 && p.seconds < 60
  {
    DayModHour(total);
    HourModMinute(total);
    var r := total % 86_400;
    var r' := total % 3600;
    assert total == (total / 86_400) * 86_400 + r;
    assert r == (r / 3600) * 3600 + r';
    assert r' == (r' / 60) * 60 + total % 60;
    Parts(total / 86_400, r / 3600, r' / 60, total % 60)
  }

  // ----- decimal digits -----

  predicate IsDigit(c: char) {
    '0' <= c <= '9'
  }

  function DigitChar(d: nat): (c: char)
    requires d < 10
    ensures IsDigit(c)
  {
    ('0' as int + d) as char
  }

  function DigitValue(c: char): (d: Option<nat>)
    ensures d.Some? <==> IsDigit(c)
    ensures d.Some? ==> d.value < 10 && DigitChar(d.value) == c
  {
    if IsDigit(c) then Some(c as int - '0' as int) else None
  }

  /** Rust's `{}` on a non-negative integer: its decimal digits, no leading zero. */
  function Decimal(n: nat): (s: string)
    ensures |s| >= 1
    ensures forall i :: 0 <= i < |s| ==> IsDigit(s[i])
    ensures n > 0 ==> s[0] != '0'
    decreases n
  {
    if n < 10 then [DigitChar(n)] else Decimal(n / 10) + [DigitChar(n % 10)]
  }

  /** Reads a non-empty run of decimal digits back as a number. */
  function ParseNat(s: string): (r: Option<nat>)
    decreases |s|
  {
    if s == [] then None
    else
      match DigitValue(s[|s| - 1])
      case None => None
      case Some(d) =>
        if |s| == 1 then Some(d)
        else
          match ParseNat(s[..|s| - 1])
          case None => None
          case Some(n) => Some(10 * n + d)
  }

  lemma {:induction false} ParseDecimal(n: nat)
    ensures ParseNat(Decimal(n)) == Some(n)
    decreases n
  {
    if n >= 10 {
      var s := Decimal(n);
      ParseDecimal(n / 10);
      assert s[..|s| - 1] == Decimal(n / 10);
      assert s[|s| - 1] == DigitChar(n % 10);
    }
  }

  /** Rust's `{:02}` on a number below 100: exactly two digits, zero-padded. */
  function Pad2(n: nat): (s: string)
    requires n < 100
    ensures |s| == 2 && IsDigit(s[0]) && IsDigit(s[1])
  {
    [DigitChar(n / 10), DigitChar(n % 10)]
  }

  /** `{:02}:{:02}:{:02}`. */
  function Clock(h: nat, m: nat, s: nat): (r: string)
    requires h < 100 && m < 100 && s < 100
    ensures |r| == 8 && r[2] == ':' && r[5] == ':'
  {
    Pad2(h) + ":" + Pad2(m) + ":" + Pad2(s)
  }

  /** The `format!` of `countdown_time`: the day count only when there are whole days left. */
  function Format(p: Parts): (r: string)
    requires p.hours < 24 && p.minutes < 60 && p.seconds < 60
    ensures |r| >= 8 && r[|r| - 6] == ':' && r[|r| - 3] == ':'
    ensures |r| == 8 <==> p.days == 0
  {
    if p.days > 0 then Decimal(p.days) + DaysSeparator + Clock(p.hours, p.minutes, p.seconds)
    else Clock(p.hours, p.minutes, p.seconds)
  }

  /** The text `countdown_time` returns for `remaining` whole seconds. */
  function CountdownText(remaining: int): (r: string)
    ensures remaining < 0 ==> r == TerminalText
    ensures remaining >= 0 ==> |r| >= 8 && r[|r| - 6] == ':' && r[|r| - 3] == ':'
    ensures remaining >= 0 ==> (|r| == 8 <==> remaining < 86_400)
  {
    if remaining < 0 then TerminalText else Format(Decompose(remaining))
  }

  // ----- reading the text back -----

  function TwoDigits(s: string): (r: Option<nat>)
    requires |s| == 2
    ensures r.Some? ==> r.value < 100
  {
    match (DigitValue(s[0]), DigitValue(s[1]))
    case (Some(a), Some(b)) => Some(10 * a + b)
    case _ => None
  }

  /** Reads `HH:MM:SS` back as a number of seconds below one day. */
  function ParseClock(s: string): (r: Option<nat>)
    ensures r.Some? ==> r.value < 86_400
  {
    if |s| != 8 || s[2] != ':' || s[5] != ':' then None
    else
      match (TwoDigits(s[0..2]), TwoDigits(s[3..5]), TwoDigits(s[6..8]))
      case (Some(h), Some(m), Some(sec)) =>
        if h < 24 && m < 60 && sec < 60
        then Some(h * 3600 + m * 60 + sec) else None
      case _ => None
  }

  /**
   * An independent reader of the display text: the whole seconds it shows, or
   * `None` for a text that is not a countdown (such as the terminal text).
   */
  function ParseCountdown(s: string): (r: Option<nat>)
  {
    if |s| == 8 then ParseClock(s)
    else if |s| > 15 && s[|s| - 15..|s| - 8] == DaysSeparator then
      match (ParseNat(s[..|s| - 15]), ParseClock(s[|s| - 8..]))
      case (Some(d), Some(c)) => if d > 0 then Some(d * 86_400 + c) else None
      case _ => None
    else None
  }

  lemma ParsePad2(n: nat)
    requires n < 100
    ensures TwoDigits(Pad2(n)) == Some(n)
  {
  }

  lemma ParseClockOf(h: nat, m: nat, s: nat)
    requires h < 24 && m < 60 && s < 60
    ensures ParseClock(Clock(h, m, s)) == Some(h * 3600 + m * 60 + s)
  {
    var c := Clock(h, m, s);
    assert c[0..2] == Pad2(h) && c[3..5] == Pad2(m) && c[6..8] == Pad2(s);
    ParsePad2(h);
    ParsePad2(m);
    ParsePad2(s);
  }

  /** Reading back a text with a day count. */
  lemma ParseWithDays(days: nat, clock: string, c: nat)
    requires days > 0 && |clock| == 8 && ParseClock(clock) == Some(c)
    ensures ParseCountdown(Decimal(days) + DaysSeparator + clock) == Some(days * 86_400 + c)
  {
    var digits := Decimal(days);
    var s := digits + DaysSeparator + clock;
    assert |s| == |digits| + 15 && |s| != 8;
    assert s[..|s| - 15] == digits;
    assert s[|s| - 15..|s| - 8] == DaysSeparator;
    assert s[|s| - 8..] == clock;
    ParseDecimal(days);
    assert ParseNat(s[..|s| - 15]) == Some(days);
    assert ParseClock(s[|s| - 8..]) == Some(c);
  }

  /** Reading back the formatted parts gives the seconds they add up to. */
  lemma ParseFormat(p: Parts)
    requires p.hours < 24 && p.minutes < 60 && p.seconds < 60
    ensures ParseCountdown(Format(p)) == Some(p.days * 86_400 + p.hours * 3600 + p.minutes * 60 + p.seconds)
  {
    var clock := Clock(p.hours, p.minutes, p.seconds);
    ParseClockOf(p.hours, p.minutes, p.seconds);
    if p.days > 0 {
      assert Format(p) == Decimal(p.days) + DaysSeparator + clock;
      ParseWithDays(p.days, clock, p.hours * 3600 + p.minutes * 60 + p.seconds);
    } else {
      assert Format(p) == clock;
    }
  }

  /** The terminal text is not a countdown. */
  lemma ParseTerminal()
    ensures ParseCountdown(TerminalText) == None
  {
    assert TerminalText[7..14] != DaysSeparator by {
      assert TerminalText[7] == 'z';
    }
  }

  /**
   * The display text determines the remaining time: reading it back gives the
   * whole seconds it was made from, and the terminal text reads as no countdown.
   */
  lemma CountdownTextRoundTrip(remaining: int)
    ensures ParseCountdown(CountdownText(remaining)) == if remaining < 0 then None else Some(remaining)
  {
    if remaining >= 0 {
      var p := Decompose(remaining);
      assert CountdownText(remaining) == Format(p);
      ParseFormat(p);
    } else {
      ParseTerminal();
    }
  }

  /** `update_countdown_label` tests for the terminal text: it appears exactly when the target has passed. */
  lemma TerminalIffNegative(remaining: int)
    ensures CountdownText(remaining) == TerminalText <==> remaining < 0
  {
    CountdownTextRoundTrip(remaining);
    if remaining >= 0 && CountdownText(remaining) == TerminalText {
      CountdownTextRoundTrip(-1);
    }
  }

  /** Worked cases of the display text. */
  lemma CountdownAtZero()
    ensures CountdownText(0) == "00:00:00"
  {
    assert Decompose(0) == Parts(0, 0, 0, 0);
    assert Pad2(0) == "00";
  }

  lemma CountdownTwoDays()
    ensures CountdownText(2 * 86_400 + 3661) == "2 días, 01:01:01"
  {
    var p := Decompose(2 * 86_400 + 3661);
    assert p == Parts(2, 1, 1, 1);
    assert Clock(1, 1, 1) == "01:01:01" by {
      assert Pad2(1) == "01";
    }
    assert Decimal(2) == "2";
    assert Format(p) == "2 días, 01:01:01";
  }

  lemma CountdownThirtyDays()
    ensures CountdownText(30 * 86_400) == "30 días, 00:00:00"
  {
    var p := Decompose(30 * 86_400);
    assert p == Parts(30, 0, 0, 0);
    assert Clock(0, 0, 0) == "00:00:00" by {
      assert Pad2(0) == "00";
    }
    assert Decimal(30) == "30" by {
      assert Decimal(3) == "3";
    }
    assert Format(p) == "30 días, 00:00:00";
  }

  // ----- the milestone gate -----

  /** The whole-day counts that trigger a notification (`30 | 7 | 0`). */
  predicate IsMilestone(days: int) {
    days == 30 || days == 7 || days == 0
  }

  /** The milestone day this evaluation checks, if any. */
  function Gate(remaining: int): (g: Option<int>)
    ensures g.Some? <==> remaining >= 0 && IsMilestone(remaining / 86_400)
    ensures g.Some? ==> g.value == remaining / 86_400
  {
    if remaining >= 0 && IsMilestone(remaining / 86_400) then Some(remaining / 86_400)
    else None
  }

  /** For a non-negative time, the gate and the text both come from the same split into parts. */
  lemma GateOfParts(remaining: nat)
    ensures Gate(remaining) ==
      if IsMilestone(Decompose(remaining).days) then Some(Decompose(remaining).days) else None
    ensures CountdownText(remaining) == Format(Decompose(remaining))
  {
  }

  /** The gate read without division: the remaining time lies within milestone day `days`. */
  lemma GateByDayRange(remaining: int, days: int)
    ensures Gate(remaining) == Some(days) <==>
      remaining >= 0 && IsMilestone(days) && days * 86_400 <= remaining < (days + 1) * 86_400
  {
  }

  /** Whether an evaluation notifies, given the days already notified. */
  predicate Fires(fired: set<int>, remaining: int) {
    Gate(remaining).Some? && Gate(remaining).value !in fired
  }

  /** The notified set after one evaluation. */
  function AfterTick(fired: set<int>, remaining: int): (f: set<int>)
    ensures fired <= f
    ensures Gate(remaining).Some? ==> Gate(remaining).value in f
    ensures Gate(remaining).None? ==> f == fired
    ensures forall d :: d in f && d !in fired ==> Gate(remaining) == Some(d)
  {
    if Gate(remaining).Some? then fired + {Gate(remaining).value} else fired
  }

  /**
   * Once an evaluation has checked a milestone day, any later evaluation on the
   * same whole day (a second later, at the next tick) notifies nothing.
   */
  lemma SecondTickSilent(fired: set<int>, remaining: int, later: int)
    requires remaining >= 0 && later >= 0 && later / 86_400 == remaining / 86_400
    ensures !Fires(AfterTick(fired, remaining), later)
  {
  }

  /** The days notified, in order, by evaluations at successive remaining times. */
  function Run(fired: set<int>, ticks: seq<int>): (notes: seq<int>)
    decreases |ticks|
  {
    if ticks == [] then []
    else
      (if Fires(fired, ticks[0]) then [Gate(ticks[0]).value] else [])
      + Run(AfterTick(fired, ticks[0]), ticks[1..])
  }

  /** The notified set after evaluations at successive remaining times. */
  function FiredAfter(fired: set<int>, ticks: seq<int>): (f: set<int>)
    decreases |ticks|
  {
    if ticks == [] then fired else FiredAfter(AfterTick(fired, ticks[0]), ticks[1..])
  }

  /** Extending a series by one more evaluation: its notification, if any, comes last. */
  lemma {:induction false} RunSnoc(fired: set<int>, ticks: seq<int>, r: int)
    ensures Run(fired, ticks + [r]) ==
      Run(fired, ticks) + (if Fires(FiredAfter(fired, ticks), r) then [Gate(r).value] else [])
    ensures FiredAfter(fired, ticks + [r]) == AfterTick(FiredAfter(fired, ticks), r)
    decreases |ticks|
  {
    if ticks == [] {
      assert [] + [r] == [r];
    } else {
      assert (ticks + [r])[1..] == ticks[1..] + [r];
      RunSnoc(AfterTick(fired, ticks[0]), ticks[1..], r);
    }
  }

  /**
   * Exactly-once notification over any series of evaluations: every day notified
   * is a milestone not notified before, no day is notified twice, every
   * milestone day some evaluation reached is notified or was already, and no
   * day joins the notified set without being notified.
   */
  lemma {:induction false} RunNotifiesOnce(fired: set<int>, ticks: seq<int>)
    ensures forall i :: 0 <= i < |Run(fired, ticks)| ==>
      IsMilestone(Run(fired, ticks)[i]) && Run(fired, ticks)[i] !in fired
    ensures forall i, j :: 0 <= i < j < |Run(fired, ticks)| ==> Run(fired, ticks)[i] != Run(fired, ticks)[j]
    ensures forall k :: 0 <= k < |ticks| && Gate(ticks[k]).Some? ==>
      Gate(ticks[k]).value in fired || Gate(ticks[k]).value in Run(fired, ticks)
    ensures forall i :: 0 <= i < |Run(fired, ticks)| ==> Run(fired, ticks)[i] in FiredAfter(fired, ticks)
    ensures fired <= FiredAfter(fired, ticks)
    ensures forall d :: d in FiredAfter(fired, ticks) ==> d in fired || d in Run(fired, ticks)
    decreases |ticks|
  {
    if ticks != [] {
      var r := ticks[0];
      var fired' := AfterTick(fired, r);
      var rest := Run(fired', ticks[1..]);
      RunNotifiesOnce(fired', ticks[1..]);
      var notes := Run(fired, ticks);
      if Fires(fired, r) {
        assert notes == [Gate(r).value] + rest;
      } else {
        assert notes == rest;
        assert fired' == fired;
      }
      forall k | 0 <= k < |ticks| && Gate(ticks[k]).Some?
        ensures Gate(ticks[k]).value in fired || Gate(ticks[k]).value in notes
      {
        if k > 0 {
          assert ticks[k] == ticks[1..][k - 1];
        }
      }
    }
  }
}
