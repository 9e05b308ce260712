/**
 * The demo application's time formatter: a playback position in
 * milliseconds becomes the text "[H:]MM:SS" shown beside the seek bar.
 */
module MusicUtils {
  import opened Wrappers

  predicate IsDigit(c: char) {
    '0' <= c <= '9'
  }

  function DigitValue(c: char): (d: nat)
    requires IsDigit(c)
    ensures d < 10
  {
    (c as int) - ('0' as int)
  }

  function DigitChar(d: nat): (c: char)
    requires d < 10
    ensures IsDigit(c) && DigitValue(c) == d
  {
    (('0' as int) + d) as char
  }

  predicate AllDigits(s: string) {
    forall k :: 0 <= k < |s| ==> IsDigit(s[k])
  }

  /** What StringBuilder.append(int) appends for a non-negative int:
      its decimal digits, without leading zeros. */
  function Decimal(n: nat): (s: string)
    ensures |s| >= 1 && AllDigits(s)
    ensures |s| > 1 ==> s[0] != '0'
    ensures n < 10 <==> |s| == 1
    decreases n
  {
    if n < 10 then [DigitChar(n)] else Decimal(n / 10) + [DigitChar(n % 10)]
  }

  /** Reads a string of decimal digits back as a number. */
  function ParseDecimal(s: string): nat
    requires AllDigits(s)
  {
    if s == [] then 0 else ParseDecimal(s[..|s| - 1]) * 10 + DigitValue(s[|s| - 1])
  }

  lemma {:induction false} ParseDecimalOfDecimal(n: nat)
    ensures ParseDecimal(Decimal(n)) == n
    decreases n
  {
    var s := Decimal(n);
    if n >= 10 {
      ParseDecimalOfDecimal(n / 10);
      assert s[..|s| - 1] == Decimal(n / 10);
    }
  }

  // The three fields getTime extracts, in whole seconds of the position.
  function Hours(time: nat): nat { time / 1000 / 3600 }
  function Minutes(time: nat): nat { time / 1000 / 60 % 60 }
  function Seconds(time: nat): nat { time / 1000 % 60 }

  /** A field below 100 written with exactly two digits. */
  function TwoDigits(n: nat): string
    requires n < 100
  {
    [DigitChar(n / 10), DigitChar(n % 10)]
  }

  /** The reference format: an unpadded hour and ':' only when the hour
      is non-zero, then two-digit minutes, ':' and two-digit seconds. */
  function TimeStamp(time: nat): string {
    (if Hours(time) > 0 then Decimal(Hours(time)) + ":" else "")
      + TwoDigits(Minutes(time)) + ":" + TwoDigits(Seconds(time))
  }

  /** One pad-then-append step of getTime agrees with TwoDigits. */
  lemma PaddedField(n: nat)
    requires n < 60
    ensures (if n < 10 then "0" else "") + Decimal(n) == TwoDigits(n)
  {
    if n >= 10 {
      assert Decimal(n) == Decimal(n / 10) + [DigitChar(n % 10)];
    }
  }

  lemma HoursFromMinutes(s: nat)
    ensures s / 60 / 60 == s / 3600
  {
    var q := s / 3600;
    var r := s % 3600;
    assert s == q * 3600 + r && 0 <= r < 3600;
    assert s / 60 == q * 60 + r / 60 by {
      assert s == (q * 60 + r / 60) * 60 + r % 60;
    }
    assert (q * 60 + r / 60) / 60 == q by {
      assert 0 <= r / 60 < 60;
    }
  }

  /**
   * getTime: the position is cut to whole seconds, split into second,
   * minute and hour by repeated division, and appended step by step to a
   * builder, padding minute and second with one "0" below ten.
   */
  method GetTime(time: int) returns (timeStamp: string)
    requires time >= 0
    ensures timeStamp == TimeStamp(time)
  {
    var cache := time / 1000;
    var second := cache % 60;
    cache := cache / 60;
    var minute := cache % 60;
    var hour := cache / 60;
    HoursFromMinutes(time / 1000);
    timeStamp := "";
    if hour > 0 {
      timeStamp := timeStamp + Decimal(hour);
      timeStamp := timeStamp + ":";
    }
    ghost var prefix := timeStamp;
    if minute < 10 {
      timeStamp := timeStamp + "0";
    }
    timeStamp := timeStamp + Decimal(minute);
    PaddedField(minute);
    assert timeStamp == prefix + TwoDigits(minute);
    timeStamp := timeStamp + ":";
    ghost var upToSeconds := timeStamp;
    if second < 10 {
      timeStamp := timeStamp + "0";
    }
    timeStamp := timeStamp + Decimal(second);
    PaddedField(second);
    assert timeStamp == upToSeconds + TwoDigits(second);
  }

  /** Reads "[H:]MM:SS" back into whole seconds; None for any other text. */
  function ParseTimeStamp(s: string): Option<nat> {
    var n := |s|;
    if n < 5 || !AllDigits(s[n - 5..n - 3]) || s[n - 3] != ':' || !AllDigits(s[n - 2..]) then None
    else
      var clock := ParseDecimal(s[n - 5..n - 3]) * 60 + ParseDecimal(s[n - 2..]);
      if n == 5 then Some(clock)
      else if n == 6 || s[n - 6] != ':' || !AllDigits(s[..n - 6]) then None
      else Some(ParseDecimal(s[..n - 6]) * 3600 + clock)
  }

  lemma TwoDigitsParse(n: nat)
    requires n < 100
    ensures AllDigits(TwoDigits(n)) && ParseDecimal(TwoDigits(n)) == n
  {
    var t := TwoDigits(n);
    assert t[..1] == [DigitChar(n / 10)];
    assert t[..1][..0] == [];
    assert ParseDecimal(t[..1]) == n / 10;
    assert ParseDecimal(t) == (n / 10) * 10 + n % 10;
  }

  lemma SecondsSplit(time: nat)
    ensures Hours(time) * 3600 + Minutes(time) * 60 + Seconds(time) == time / 1000
  {
    var s := time / 1000;
    HoursFromMinutes(s);
    assert s == (s / 60) * 60 + s % 60;
    assert s / 60 == (s / 60 / 60) * 60 + (s / 60) % 60;
  }

  /** Formatting then parsing recovers the position in whole seconds: the
      sub-second milliseconds are the only thing lost. */
  lemma {:induction false} TimeStampRoundTrip(time: nat)
    ensures ParseTimeStamp(TimeStamp(time)) == Some(time / 1000)
  {
    var s := TimeStamp(time);
    var n := |s|;
    var prefix := if Hours(time) > 0 then Decimal(Hours(time)) + ":" else "";
    var mm := TwoDigits(Minutes(time));
    var ss := TwoDigits(Seconds(time));
    assert s == prefix + mm + ":" + ss;
    assert s[n - 5..n - 3] == mm;
    assert s[n - 2..] == ss;
    TwoDigitsParse(Minutes(time));
    TwoDigitsParse(Seconds(time));
    SecondsSplit(time);
    if Hours(time) > 0 {
      assert s[..n - 6] == Decimal(Hours(time));
      ParseDecimalOfDecimal(Hours(time));
    }
  }

  /** The shape of every result: two-digit minute and second fields around
      a ':' at the end, and an unpadded hour followed by ':' exactly when
      the position is at least one hour. */
  lemma TimeStampShape(time: nat)
    ensures var s := TimeStamp(time);
      && |s| >= 5
      && IsDigit(s[|s| - 5]) && IsDigit(s[|s| - 4]) && s[|s| - 3] == ':'
      && IsDigit(s[|s| - 2]) && IsDigit(s[|s| - 1])
      && (|s| > 5 <==> time >= 3600000)
      && (|s| > 5 ==> |s| >= 7 && s[|s| - 6] == ':' && s[0] != '0' && AllDigits(s[..|s| - 6]))
  {
    var s := TimeStamp(time);
    var tail := TwoDigits(Minutes(time)) + ":" + TwoDigits(Seconds(time));
    var n := |s|;
    if Hours(time) > 0 {
      var h := Decimal(Hours(time));
      assert s == h + ":" + tail;
      assert s[..n - 6] == h;
      assert time >= 3600000;
    } else {
      assert s == tail;
      assert time < 3600000;
    }
  }

  /** Below one hour the text is exactly "MM:SS". */
  lemma ShortTimeStamp(time: nat)
    requires time < 3600000
    ensures |TimeStamp(time)| == 5 && TimeStamp(time)[2] == ':'
  {
    TimeStampShape(time);
  }

  /** Two positions print the same text exactly when they fall in the same
      whole second. */
  lemma TimeStampSameSecond(t1: nat, t2: nat)
    ensures TimeStamp(t1) == TimeStamp(t2) <==> t1 / 1000 == t2 / 1000
  {
    TimeStampRoundTrip(t1);
    TimeStampRoundTrip(t2);
  }

  lemma TimeStampExamples()
    ensures TimeStamp(0) == "00:00"
    ensures TimeStamp(61000) == "01:01"
    ensures TimeStamp(3661000) == "1:01:01"
  {
    assert Decimal(1) == "1";
  }
}
