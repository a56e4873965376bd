/**
  Schedule times of a service day, written "HH:MM:SS" with an hour that may be
  24 or more for trips after midnight (src/utils/busTracker.ts). Every part is
  read with `parseInt` of a fixed two-character substring.
*/
module TimeCodec {
  import opened Wrappers
  import opened NumberText

  /** Two decimal digits at offsets 0, 3 and 6: what `parseInt` needs to read a number from each part. */
  predicate WellFormed(t: string)
  {
    && |t| >= 8
    && IsDigit(t[0]) && IsDigit(t[1])
    && IsDigit(t[3]) && IsDigit(t[4])
    && IsDigit(t[6]) && IsDigit(t[7])
  }

  /** `parseInt(t.substring(i, i + 2))` on two digits. */
  function Field(t: string, i: nat): (v: nat)
    requires i + 1 < |t| && IsDigit(t[i]) && IsDigit(t[i + 1])
    ensures v < 100
  {
    10 * DigitValue(t[i]) + DigitValue(t[i + 1])
  }

  function Hour(t: string): nat
    requires WellFormed(t)
  {
    Field(t, 0)
  }

  function Minute(t: string): nat
    requires WellFormed(t)
  {
    Field(t, 3)
  }

  function Second(t: string): nat
    requires WellFormed(t)
  {
    Field(t, 6)
  }

  /** A reading of a clock: minutes and seconds below 60; the hour is unbounded (below 100 by width). */
  predicate Valid(t: string)
  {
    WellFormed(t) && Minute(t) < 60 && Second(t) < 60
  }

  /** Each part is exactly what `parseInt` reads from its two characters. */
  lemma FieldIsParseInt(t: string, i: nat)
    requires i + 1 < |t| && IsDigit(t[i]) && IsDigit(t[i + 1])
    ensures ParseInt(t[i..i + 2]) == Some(Field(t, i) as int)
  {
    var d := t[i..i + 2];
    assert d[..1] == [t[i]] && d[..|d| - 1] == [t[i]];
    assert d + [] == d;
    ParseDigitsOf(d, []);
    assert ParseInt(d) == ParseDigits(d) by { assert IsDigit(d[0]); }
    assert DigitsValue(d) == DigitsValue([t[i]]) * 10 + DigitValue(t[i + 1]);
    assert DigitsValue([t[i]]) == DigitValue(t[i]) by { assert [t[i]][..0] == []; }
  }

  /** `isTimeStringOlder`: lexicographic comparison of (hour, minute, second). */
  predicate IsOlder(a: string, b: string)
    requires WellFormed(a) && WellFormed(b)
  {
    Hour(a) < Hour(b)
    || (Hour(a) == Hour(b) && (Minute(a) < Minute(b)
                               || (Minute(a) == Minute(b) && Second(a) < Second(b))))
  }

  /** `timeStringDiff`: signed difference in seconds, part by part. */
  function Diff(a: string, b: string): int
    requires WellFormed(a) && WellFormed(b)
  {
    (Hour(a) - Hour(b)) * 60 * 60 + (Minute(a) - Minute(b)) * 60 + (Second(a) - Second(b))
  }

  /** `timeStringToSeconds`: seconds since the start of the service day. */
  function ToSeconds(t: string): nat
    requires WellFormed(t)
  {
    Hour(t) * 60 * 60 + Minute(t) * 60 + Second(t)
  }

  /** The three parts packed in base 100: the order `IsOlder` decides. */
  function Rank(t: string): (r: nat)
    requires WellFormed(t)
    ensures r < 1000000
  {
    Hour(t) * 10000 + Minute(t) * 100 + Second(t)
  }

  /** Upper bound of `Rank`, used as a termination bound for walks through a day. */
  const RankBound: nat := 1000000

  lemma {:induction false} IsOlderIsRankLess(a: string, b: string)
    requires WellFormed(a) && WellFormed(b)
    ensures IsOlder(a, b) <==> Rank(a) < Rank(b)
  {
    var ha, ma, sa := Hour(a), Minute(a), Second(a);
    var hb, mb, sb := Hour(b), Minute(b), Second(b);
    if ha < hb {
      assert Rank(a) <= ha * 10000 + 9999;
      assert (ha + 1) * 10000 <= hb * 10000;
    } else if ha > hb {
      assert Rank(b) <= hb * 10000 + 9999;
      assert (hb + 1) * 10000 <= ha * 10000;
    } else if ma < mb {
      assert (ma + 1) * 100 <= mb * 100;
    } else if ma > mb {
      assert (mb + 1) * 100 <= ma * 100;
    }
  }

  /** `IsOlder` is a strict order: irreflexive, transitive, and any two times are ordered or equal in every part. */
  lemma IsOlderStrictOrder(a: string, b: string, c: string)
    requires WellFormed(a) && WellFormed(b) && WellFormed(c)
    ensures !IsOlder(a, a)
    ensures IsOlder(a, b) && IsOlder(b, c) ==> IsOlder(a, c)
    ensures !IsOlder(a, b) && !IsOlder(b, c) ==> !IsOlder(a, c)
    ensures !IsOlder(a, b) && !IsOlder(b, a) <==> Hour(a) == Hour(b) && Minute(a) == Minute(b) && Second(a) == Second(b)
  {
    IsOlderIsRankLess(a, b);
    IsOlderIsRankLess(b, c);
    IsOlderIsRankLess(a, c);
    IsOlderIsRankLess(b, a);
  }

  /** `timeStringDiff` is the difference of `timeStringToSeconds`; so it vanishes on equal arguments and is antisymmetric. */
  lemma DiffIsSecondsDifference(a: string, b: string)
    requires WellFormed(a) && WellFormed(b)
    ensures Diff(a, b) == ToSeconds(a) - ToSeconds(b)
    ensures Diff(a, a) == 0
    ensures Diff(a, b) == -Diff(b, a)
  {
  }

  /** On clock readings, `isTimeStringOlder(a, b)` holds exactly when `timeStringDiff(a, b)` is negative. */
  lemma {:induction false} IsOlderIffDiffNegative(a: string, b: string)
    requires Valid(a) && Valid(b)
    ensures IsOlder(a, b) <==> Diff(a, b) < 0
  {
    var ha: int, ma: int, sa: int := Hour(a), Minute(a), Second(a);
    var hb: int, mb: int, sb: int := Hour(b), Minute(b), Second(b);
    var rest := (ma - mb) * 60 + (sa - sb);
    assert -3600 < rest < 3600;
    assert Diff(a, b) == (ha - hb) * 3600 + rest;
    if ha < hb {
      assert (ha - hb) * 3600 <= -3600;
    } else if ha > hb {
      assert (ha - hb) * 3600 >= 3600;
    } else if ma < mb {
      assert (ma - mb) * 60 <= -60;
    } else if ma > mb {
      assert (ma - mb) * 60 >= 60;
    }
  }

  /** Three two-digit parts joined by colons, as the template literal writes them. */
  function Clock(h: nat, m: nat, s: nat): (t: string)
    requires h < 100 && m < 100 && s < 100
    ensures WellFormed(t) && |t| == 8
    ensures Hour(t) == h && Minute(t) == m && Second(t) == s
    ensures t[2] == ':' && t[5] == ':'
  {
    var a, b, c := TwoDigits(h), TwoDigits(m), TwoDigits(s);
    [a[0], a[1], ':', b[0], b[1], ':', c[0], c[1]]
  }

  /**
    `dateToTimeString` on the hour, minute and second of a `Date` (the getters
    return 0-23, 0-59, 0-59): hours before 03:00 are written as 24-26 when
    `moreThan24HourTime` is set. The text reads back as the same clock reading.
  */
  /** The hour `dateToTimeString` writes: 24 added before 03:00 on a long service day. */
  function LongDayHour(hours: nat, moreThan24HourTime: bool): (h: nat)
    requires hours < 24
    ensures h < 27
    ensures moreThan24HourTime && hours < 3 ==> h == hours + 24
    ensures !(moreThan24HourTime && hours < 3) ==> h == hours
  {
    if moreThan24HourTime && hours < 3 then hours + 24 else hours
  }

  function DateToTimeString(hours: nat, minutes: nat, seconds: nat, moreThan24HourTime: bool): (t: string)
    requires hours < 24 && minutes < 60 && seconds < 60
    ensures Valid(t) && |t| == 8
    ensures t[2] == ':' && t[5] == ':'
    ensures Hour(t) == (if moreThan24HourTime && hours < 3 then hours + 24 else hours)
    ensures Minute(t) == minutes && Second(t) == seconds
    ensures ToSeconds(t) == Hour(t) * 3600 + minutes * 60 + seconds
  {
    Clock(LongDayHour(hours, moreThan24HourTime), minutes, seconds)
  }


  /**
    JavaScript's `n % 60`: the remainder of the division truncated toward
    zero. It is below 60 in magnitude, differs from `n` by a multiple of 60,
    and takes the sign of `n`.
  */
  function TruncRem(n: int): (r: int)
    ensures -60 < r < 60
    ensures (n - r) % 60 == 0
    ensures n >= 0 ==> r >= 0
    ensures n <= 0 ==> r <= 0
  {
    if n >= 0 then
      assert n - n % 60 == (n / 60) * 60;
      n % 60
    else
      var q := (-n) / 60;
      assert n + (-n) % 60 == (-q) * 60;
      -((-n) % 60)
  }

  function Abs(a: int): nat
  {
    if a < 0 then -a else a
  }

  /**
    `secondsToMinuteAndSeconds`: `Math.floor(n / 60)`, a colon, and
    `Math.abs(n % 60)` padded to two digits. Dafny's `/` on a positive
    divisor is the floor.
  */
  function MinuteAndSeconds(n: int): string
  {
    IntToString(n / 60) + ":" + TwoDigits(Abs(TruncRem(n)))
  }

  /** How a reader takes "M:SS" or "-M:SS": the sign applies to the whole duration. */
  function ReadMinuteAndSeconds(s: string): Option<int>
  {
    if |s| >= 4 && s[|s| - 3] == ':' && IsDigit(s[|s| - 2]) && IsDigit(s[|s| - 1]) then
      var ss := Field(s, |s| - 2);
      match ParseInt(s[..|s| - 3])
      case Some(m) => Some(if s[0] == '-' then m * 60 - ss else m * 60 + ss)
      case None => None
    else None
  }

  lemma ReadMinuteAndSecondsOf(prefix: string, m: int, sec: nat)
    requires sec < 60
    requires ParseInt(prefix) == Some(m) && |prefix| >= 1
    ensures ReadMinuteAndSeconds(prefix + ":" + TwoDigits(sec))
         == Some(if prefix[0] == '-' then m * 60 - sec else m * 60 + sec)
  {
    var p := TwoDigits(sec);
    var tail := [':', p[0], p[1]];
    assert ":" + p == tail;
    var s := prefix + tail;
    assert prefix + ":" + p == s;
    assert s[..|s| - 3] == prefix;
    assert s[|s| - 3] == ':' && s[|s| - 2] == p[0] && s[|s| - 1] == p[1];
    assert s[0] == prefix[0];
    assert Field(s, |s| - 2) == sec;
  }

  /** For a non-negative number of seconds the text reads back as that number. */
  lemma MinuteAndSecondsRoundTrip(n: int)
    requires n >= 0
    ensures ReadMinuteAndSeconds(MinuteAndSeconds(n)) == Some(n)
  {
    ParseIntOfIntToString(n / 60, []);
    assert IntToString(n / 60) + [] == IntToString(n / 60);
    assert TruncRem(n) == n % 60;
    ReadMinuteAndSecondsOf(IntToString(n / 60), n / 60, Abs(TruncRem(n)));
  }

  /** The remainder written for a negative dividend, in terms of Dafny's floor division. */
  lemma NegativeRemainder(n: int)
    requires n < 0
    ensures Abs(TruncRem(n)) == if n % 60 == 0 then 0 else 60 - n % 60
  {
    assert TruncRem(n) == -((-n) % 60);
  }

  /**
    For a negative number of seconds that is not a whole number of minutes the
    text reads one minute too negative: -65 is written "-2:05".
  */
  lemma MinuteAndSecondsNegative(n: int)
    requires n < 0
    ensures ReadMinuteAndSeconds(MinuteAndSeconds(n)) == Some(if n % 60 == 0 then n else n - 60)
  {
    var q := n / 60;
    ParseIntOfIntToString(q, []);
    assert IntToString(q) + [] == IntToString(q);
    var sec := Abs(TruncRem(n));
    ReadMinuteAndSecondsOf(IntToString(q), q, sec);
    assert IntToString(q)[0] == '-';
    NegativeRemainder(n);
    assert n == q * 60 + n % 60;
  }

  lemma MinuteAndSecondsExample()
    ensures MinuteAndSeconds(-65) == "-2:05"
    ensures ReadMinuteAndSeconds(MinuteAndSeconds(-65)) == Some(-125)
  {
    MinuteAndSecondsNegative(-65);
  }

  /** The evidently intended display: sign, whole minutes, seconds. */
  function SignedMinuteAndSeconds(n: int): string
  {
    (if n < 0 then "-" else "") + NatToString(Abs(n) / 60) + ":" + TwoDigits(Abs(n) % 60)
  }

  lemma SignedMinuteAndSecondsRoundTrip(n: int)
    ensures ReadMinuteAndSeconds(SignedMinuteAndSeconds(n)) == Some(n)
  {
    if n < 0 {
      SignedNegativeRoundTrip(n);
    } else {
      var q := n / 60;
      ParseIntOfNonNegative(q, []);
      assert NatToString(q) + [] == NatToString(q);
      ReadMinuteAndSecondsOf(NatToString(q), q, n % 60);
      assert SignedMinuteAndSeconds(n) == NatToString(q) + ":" + TwoDigits(n % 60);
    }
  }

  lemma SignedNegativeRoundTrip(n: int)
    requires n < 0
    ensures ReadMinuteAndSeconds(SignedMinuteAndSeconds(n)) == Some(n)
  {
    var q := Abs(n) / 60;
    var d := NatToString(q);
    NegatedDigits(q);
    ReadMinuteAndSecondsOf("-" + d, -q, Abs(n) % 60);
    assert SignedMinuteAndSeconds(n) == ("-" + d) + ":" + TwoDigits(Abs(n) % 60);
  }

  lemma NegatedDigits(q: nat)
    ensures ParseInt("-" + NatToString(q)) == Some(-(q as int))
  {
    var d := NatToString(q);
    ParseIntOfNonNegative(q, []);
    assert d + [] == d;
    assert ParseDigits(d) == Some(q) by {
      assert IsDigit(d[0]);
    }
    ParseIntOfMinus(d, q);
  }
}
