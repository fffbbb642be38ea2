/** The "HH:MM" helpers of the scheduler (schedulerService.js, lines 6-17). */
module TimeOfDay {
  import opened Wrappers
  import opened Text

  /** `timeToMinutes`: split on ':' and read the first two parts with
      `Number`; a missing or non-numeric part makes the result `NaN`
      (`None`). Parts after the second are ignored. */
  function TimeToMinutes(time: string): Option<nat>
  {
    MinutesOfParts(Split(time, ':'))
  }

  /** The hours and minutes parts of a split time, `NaN` when either is not
      a number. */
  function MinutesOfParts(parts: seq<string>): Option<nat>
  {
    if |parts| < 2 then None
    else
      match (NumberOf(parts[0]), NumberOf(parts[1]))
      case (Some(h), Some(m)) => Some(h * 60 + m)
      case _ => None
  }

  /** `minutesToTime`: hours and minutes, each zero-padded to two digits. */
  function MinutesToTime(minutes: nat): (s: string)
    ensures ':' in s
  {
    var s := PadTwo(NatToString(minutes / 60)) + ":" + PadTwo(NatToString(minutes % 60));
    assert s[|PadTwo(NatToString(minutes / 60))|] == ':';
    s
  }

  /** A canonical time of day: five characters "HH:MM", digits around a
      colon, hours below 24 and minutes below 60. */
  predicate IsClockTime(s: string) {
    && |s| == 5
    && IsDigit(s[0]) && IsDigit(s[1]) && s[2] == ':' && IsDigit(s[3]) && IsDigit(s[4])
    && DigitValue(s[0]) * 10 + DigitValue(s[1]) < 24
    && DigitValue(s[3]) * 10 + DigitValue(s[4]) < 60
  }

  lemma PadRendered(n: nat)
    ensures AllDigits(PadTwo(NatToString(n)))
    ensures DigitsValue(PadTwo(NatToString(n))) == n
    ensures ':' !in PadTwo(NatToString(n))
  {
    DigitsValueOfRender(n);
    if n < 10 {
      LeadingZero(NatToString(n));
    }
  }

  /** Rendering minutes and parsing them back is the identity, for every
      non-negative minute count (not only those below 1440). */
  lemma MinutesRoundTrip(minutes: nat)
    ensures TimeToMinutes(MinutesToTime(minutes)) == Some(minutes)
  {
    var h := PadTwo(NatToString(minutes / 60));
    var m := PadTwo(NatToString(minutes % 60));
    PadRendered(minutes / 60);
    PadRendered(minutes % 60);
    assert MinutesToTime(minutes) == h + [':'] + m;
    SplitTwo(h, m);
    ParseParts(MinutesToTime(minutes), h, m);
    DivMod60(minutes, DigitsValue(h), DigitsValue(m));
  }

  lemma ParseParts(time: string, h: string, m: string)
    requires Split(time, ':') == [h, m] && AllDigits(h) && AllDigits(m)
    ensures TimeToMinutes(time) == Some(DigitsValue(h) * 60 + DigitsValue(m))
  {
    assert NumberOf(h) == Some(DigitsValue(h));
    assert NumberOf(m) == Some(DigitsValue(m));
    assert MinutesOfParts([h, m]) == Some(DigitsValue(h) * 60 + DigitsValue(m));
  }

  lemma SplitTwo(h: string, m: string)
    requires ':' !in h && ':' !in m
    ensures Split(h + [':'] + m, ':') == [h, m]
  {
    SplitPrefix(h, m, ':');
    SplitNoSep(m, ':');
  }

  lemma DivMod60(minutes: nat, h: nat, m: nat)
    requires h == minutes / 60 && m == minutes % 60
    ensures h * 60 + m == minutes
  {
  }

  lemma TwoDigitValue(p: string)
    requires |p| == 2 && AllDigits(p)
    ensures DigitsValue(p) == DigitValue(p[0]) * 10 + DigitValue(p[1])
  {
    var q := p[..1];
    assert p[..|p| - 1] == q;
    assert q[..|q| - 1] == [];
    assert DigitsValue(q) == DigitsValue([]) * 10 + DigitValue(q[0]);
  }

  lemma TwoDigits(n: nat)
    requires n < 100
    ensures |PadTwo(NatToString(n))| == 2
    ensures var p := PadTwo(NatToString(n));
      DigitValue(p[0]) * 10 + DigitValue(p[1]) == n
  {
    NatToStringLength(n);
    PadRendered(n);
    TwoDigitValue(PadTwo(NatToString(n)));
  }

  /** Within a day the rendering is always a canonical five-character "HH:MM". */
  lemma MinutesToTimeShape(minutes: nat)
    requires minutes < 1440
    ensures IsClockTime(MinutesToTime(minutes))
  {
    TwoDigits(minutes / 60);
    TwoDigits(minutes % 60);
    PadRendered(minutes / 60);
    PadRendered(minutes % 60);
  }

  lemma DigitPairUnique(a: char, b: char, c: char, d: char)
    requires IsDigit(a) && IsDigit(b) && IsDigit(c) && IsDigit(d)
    requires DigitValue(a) * 10 + DigitValue(b) == DigitValue(c) * 10 + DigitValue(d)
    ensures a == c && b == d
  {
  }

  /** A two-digit string is the padded rendering of its own value. */
  lemma RenderTwoDigits(p: string)
    requires |p| == 2 && AllDigits(p)
    ensures PadTwo(NatToString(DigitsValue(p))) == p
  {
    TwoDigitValue(p);
    var n := DigitsValue(p);
    TwoDigits(n);
    var q := PadTwo(NatToString(n));
    PadRendered(n);
    DigitPairUnique(q[0], q[1], p[0], p[1]);
  }

  lemma SplitClock(h: nat, m: nat)
    requires m < 60
    ensures (h * 60 + m) / 60 == h && (h * 60 + m) % 60 == m
    ensures h < 24 ==> h * 60 + m < 1440
  {
  }

  /** The minute count a canonical time denotes. */
  function ClockValue(s: string): nat
    requires IsClockTime(s)
  {
    (DigitValue(s[0]) * 10 + DigitValue(s[1])) * 60 + DigitValue(s[3]) * 10 + DigitValue(s[4])
  }

  lemma ParseClock(s: string)
    requires IsClockTime(s)
    ensures TimeToMinutes(s) == Some(ClockValue(s))
  {
    var hh, mm := s[..2], s[3..];
    assert s == hh + [':'] + mm;
    SplitTwo(hh, mm);
    ParseParts(s, hh, mm);
    TwoDigitValue(hh);
    TwoDigitValue(mm);
  }

  lemma RenderClockValue(s: string, t: nat)
    requires IsClockTime(s) && t == ClockValue(s)
    ensures t < 1440
    ensures MinutesToTime(t) == s
  {
    var hh, mm := s[..2], s[3..];
    assert s == hh + ":" + mm;
    TwoDigitValue(hh);
    TwoDigitValue(mm);
    var h, m := DigitsValue(hh), DigitsValue(mm);
    assert hh[0] == s[0] && hh[1] == s[1] && mm[0] == s[3] && mm[1] == s[4];
    assert t == h * 60 + m;
    SplitClock(h, m);
    RenderPair(hh, mm, h, m);
  }

  lemma RenderPair(hh: string, mm: string, h: nat, m: nat)
    requires |hh| == 2 && |mm| == 2 && AllDigits(hh) && AllDigits(mm)
    requires h == DigitsValue(hh) && m == DigitsValue(mm) && m < 60
    ensures MinutesToTime(h * 60 + m) == hh + ":" + mm
  {
    RenderTwoDigits(hh);
    RenderTwoDigits(mm);
    RenderClock(h, m, hh, mm);
  }

  /** Conversely, a canonical time survives parsing and re-rendering. */
  lemma ClockTimeRoundTrip(s: string)
    requires IsClockTime(s)
    ensures TimeToMinutes(s).Some?
    ensures TimeToMinutes(s).value < 1440
    ensures MinutesToTime(TimeToMinutes(s).value) == s
  {
    ParseClock(s);
    RenderClockValue(s, ClockValue(s));
  }

  lemma RenderClock(h: nat, m: nat, hh: string, mm: string)
    requires m < 60
    requires PadTwo(NatToString(h)) == hh && PadTwo(NatToString(m)) == mm
    ensures MinutesToTime(h * 60 + m) == hh + ":" + mm
  {
    SplitClock(h, m);
  }
}
