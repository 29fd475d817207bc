/** The clock of the NMEA reader: the date and time tokens of a sentence, as digits, and the
    timestamp of the fix. */
module GpsTime {
  import opened GpsCalendar

  predicate Digits(s: string) { forall i :: 0 <= i < |s| ==> '0' <= s[i] <= '9' }

  /** The number a string of digits stands for */
  function Value(s: string): nat
    requires Digits(s)
  {
    if s == [] then 0 else 10 * Value(s[..|s| - 1]) + (s[|s| - 1] as int - '0' as int)
  }

  /** str2int */
  method Str2Int(s: string) returns (result: int)
    ensures result == Parsed(s)
  {
    result := 0;
    for i := 0 to |s|
      invariant Digits(s[..i]) && result == Value(s[..i])
    {
      if !('0' <= s[i] <= '9') {
        assert s[i] in s;
        return -1;
      }
      assert s[..i + 1][..i] == s[..i];
      result := result * 10 + (s[i] as int - '0' as int);
    }
    assert s[..|s|] == s;
  }

  function Parsed(s: string): int { if Digits(s) then Value(s) else -1 }

  /** The milliseconds behind the point: one or two digits are tenths or hundredths, of more than
      three the first three count. */
  function Milliseconds(tok: string): int {
    var n := |tok| - 7;
    if n == 2 then Parsed(tok[7..]) * 10
    else if n == 1 then Parsed(tok[7..]) * 100
    else if n >= 3 then Parsed(tok[7..10])
    else 0
  }

  function Power10(n: nat): (p: nat)
    ensures p > 0
  {
    if n == 0 then 1 else 10 * Power10(n - 1)
  }

  /** t is the whole number of thousandths in the digits behind the point. */
  predicate InThousandths(t: int, digits: string)
    requires Digits(digits)
  {
    t * Power10(|digits|) <= Value(digits) * 1000 < (t + 1) * Power10(|digits|)
  }

  function Fraction(tok: string): string { if |tok| > 7 then tok[7..] else "" }

  /** hhmmss, or that with a point and more digits */
  predicate TimeOfDay(tok: string) { |tok| >= 6 && Digits(tok[..6]) && Digits(Fraction(tok)) }

  class NmeaReader {
    var utcYear: int
    var utcMon: int
    var utcDay: int
    var timestamp: int

    constructor ()
      ensures utcYear == utcMon == utcDay == -1 && timestamp == 0
    {
      utcYear, utcMon, utcDay, timestamp := -1, -1, -1, 0;
    }

    /** The members nmea_reader_update_time fills in */
    function TmOf(tok: string): Tm
      requires |tok| >= 6
      reads this
    {
      Tm(utcYear - 1900, utcMon - 1, utcDay, Parsed(tok[..2]), Parsed(tok[2..4]), Parsed(tok[4..6]))
    }

    /** nmea_reader_update_time */
    method UpdateTime(tok: string) returns (rc: int)
      modifies this`timestamp
      ensures rc == (if |tok| < 6 || utcYear < 0 then -1 else 0)
      ensures timestamp == if rc == 0 then Computed(TmOf(tok)) * 1000 + Milliseconds(tok) else old(timestamp)
      ensures rc == 0 && TimeOfDay(tok) ==>
        && Digits(tok[..2]) && Digits(tok[2..4]) && Digits(tok[4..6])
        && InThousandths(timestamp - 1000 *
             Computed(Tm(utcYear - 1900, utcMon - 1, utcDay, Value(tok[..2]), Value(tok[2..4]), Value(tok[4..6]))), Fraction(tok))
    {
      hide Computed, Parsed;
      if |tok| < 6 {
        return -1;
      }
      if utcYear < 0 {
        return -1;
      }
      var hour := Str2Int(tok[..2]);
      var minute := Str2Int(tok[2..4]);
      var seconds := Str2Int(tok[4..6]);
      var milliseconds := 0;
      if |tok| - 7 == 2 {
        milliseconds := Str2Int(tok[7..]);
        milliseconds := milliseconds * 10;
      } else if |tok| - 7 == 1 {
        milliseconds := Str2Int(tok[7..]);
        milliseconds := milliseconds * 100;
      } else if |tok| - 7 >= 3 {
        milliseconds := Str2Int(tok[7..10]);
      }
      var fixTime := MkGmTime(Tm(utcYear - 1900, utcMon - 1, utcDay, hour, minute, seconds));
      timestamp := fixTime * 1000 + milliseconds;
      rc := 0;
      if TimeOfDay(tok) { TimeRead(tok); }
    }

    /** nmea_reader_update_date: it fails when day, month or year is negative, but 2000 is added
        to the year before, so that a year that is not two digits passes for 1999. */
    method UpdateDate(date: string, time: string) returns (rc: int)
      modifies this
      ensures var ok := |date| == 6 && Digits(date[..4]);
        if ok then
          && utcDay == Value(date[..2]) && utcMon == Value(date[2..4]) && utcYear == Parsed(date[4..6]) + 2000
          && rc == (if |time| < 6 then -1 else 0)
          && timestamp == if rc == 0 then Computed(TmOf(time)) * 1000 + Milliseconds(time) else old(timestamp)
        else rc == -1 && (utcDay, utcMon, utcYear, timestamp) == old((utcDay, utcMon, utcYear, timestamp))
      ensures |date| == 6 && Digits(date[..4]) && !Digits(date[4..6]) ==> utcYear == 1999
      ensures |date| == 6 && Digits(date) && 1 <= Value(date[2..4]) <= 12 && |time| >= 6
        ==> rc == 0 && timestamp == TimestampOf(Value(date[4..6]) + 2000, Value(date[2..4]), Value(date[..2]), time)
      ensures |date| == 6 && Digits(date) && 1 <= Value(date[2..4]) <= 12 && TimeOfDay(time)
        ==> && Digits(time[..2]) && Digits(time[2..4]) && Digits(time[4..6])
            && InThousandths(timestamp - 1000 *
                 Seconds(Value(date[4..6]) + 2000, Value(date[2..4]) - 1, Value(date[..2]),
                         Value(time[..2]), Value(time[2..4]), Value(time[4..6])), Fraction(time))
    {
      hide Computed, Milliseconds, Seconds, Value, Digits;
      if |date| != 6 {
        return -1;
      }
      var day := Str2Int(date[..2]);
      var mon := Str2Int(date[2..4]);
      var year := Str2Int(date[4..6]);
      year := year + 2000;
      SplitDigits(date);
      if day < 0 || mon < 0 || year < 0 {
        return -1;
      }
      utcYear, utcMon, utcDay := year, mon, day;
      rc := UpdateTime(time);
      if Digits(date) && 1 <= mon <= 12 && |time| >= 6 {
        TwoDigits(date[4..6]);
        DateIsEpoch(year, mon, day, Parsed(time[..2]), Parsed(time[2..4]), Parsed(time[4..6]));
        if TimeOfDay(time) { TimeRead(time); }
      }
    }
  }

  lemma SplitDigits(date: string)
    requires |date| == 6
    ensures Digits(date[..4]) <==> Digits(date[..2]) && Digits(date[2..4])
    ensures Digits(date) <==> Digits(date[..4]) && Digits(date[4..6])
  {
    assert forall i :: 0 <= i < 2 ==> date[..4][i] == date[..2][i] == date[i];
    assert forall i :: 0 <= i < 2 ==> date[..4][i + 2] == date[2..4][i];
    assert forall i :: 0 <= i < 4 ==> date[..4][i] == date[i];
    assert forall i :: 0 <= i < 2 ==> date[4..6][i] == date[i + 4];
  }

  /** The time as it is written: hours, minutes and seconds, and the thousandths, cut off */
  lemma TimeRead(tok: string)
    requires TimeOfDay(tok)
    ensures Digits(tok[..2]) && Digits(tok[2..4]) && Digits(tok[4..6])
    ensures Parsed(tok[..2]) == Value(tok[..2]) && Parsed(tok[2..4]) == Value(tok[2..4]) && Parsed(tok[4..6]) == Value(tok[4..6])
    ensures InThousandths(Milliseconds(tok), Fraction(tok))
  {
    hide Value, Power10;
    SplitDigits(tok[..6]);
    assert tok[..6][..2] == tok[..2] && tok[..6][..4][..2] == tok[..2];
    assert tok[..6][2..4] == tok[2..4] && tok[..6][4..6] == tok[4..6];
    ThousandthsAre(Fraction(tok));
    if |tok| >= 10 { assert tok[7..][..3] == tok[7..10]; }
  }

  lemma ThousandthsAre(f: string)
    requires Digits(f)
    ensures |f| >= 3 ==> Digits(f[..3])
    ensures InThousandths(
      if |f| >= 3 then Value(f[..3]) else if |f| == 2 then Value(f) * 10 else if |f| == 1 then Value(f) * 100 else 0, f)
  {
    hide Value, Power10;
    SmallPowers();
    if |f| >= 3 {
      assert forall i :: 0 <= i < 3 ==> f[..3][i] == f[i];
      ValueOfPrefix(f, 3);
      ThousandTimes(|f| - 3);
      Times(1000, Value(f[..3]), Power10(|f| - 3));
      Times(1000, Value(f[..3]) + 1, Power10(|f| - 3));
    } else if f == [] {
      EmptyValue();
    }
  }

  lemma Times(k: nat, v: nat, p: nat)
    ensures v * (k * p) == k * (v * p)
  {
  }

  lemma EmptyValue()
    ensures Value("") == 0
  {
  }

  lemma SmallPowers()
    ensures Power10(0) == 1 && Power10(1) == 10 && Power10(2) == 100 && Power10(3) == 1000
  {
    assert Power10(1) == 10 * Power10(0);
    assert Power10(2) == 10 * Power10(1);
  }

  lemma ThousandTimes(n: nat)
    ensures Power10(n + 3) == 1000 * Power10(n)
  {
    assert Power10(n + 2) == 10 * Power10(n + 1);
  }

  lemma ValueOfMore(s: string, n: nat, k: nat)
    requires k <= n == |s| - 1 && Digits(s)
    ensures Digits(s[..n]) && 10 * Value(s[..n]) <= Value(s) < 10 * Value(s[..n]) + 10
    ensures Power10(|s| - k) == 10 * Power10(n - k)
  {
  }

  /** The first k digits are the number without the others. */
  lemma {:induction false} ValueOfPrefix(s: string, k: nat)
    requires k <= |s| && Digits(s)
    ensures Digits(s[..k]) && Value(s[..k]) * Power10(|s| - k) <= Value(s) < (Value(s[..k]) + 1) * Power10(|s| - k)
    decreases |s|
  {
    hide Value, Power10;
    if k == |s| {
      assert s[..k] == s;
      SmallPowers();
    } else {
      var n := |s| - 1;
      ValueOfPrefix(s[..n], k);
      assert s[..n][..k] == s[..k];
      Times(10, Value(s[..k]), Power10(n - k));
      Times(10, Value(s[..k]) + 1, Power10(n - k));
      ValueOfMore(s, n, k);
    }
  }

  lemma TwoDigits(s: string)
    requires |s| == 2 && Digits(s)
    ensures 0 <= Value(s) < 100
  {
    assert s[..1][..0] == [];
    assert Value(s[..1]) == s[0] as int - '0' as int;
  }

  // ------------------------------------------------------------------- results

  /** The timestamp counted year by year. Months are counted from 1; an hour, minute or second that
      is not two digits is not refused and counts as -1. */
  function TimestampOf(y: int, m: nat, d: int, time: string): int
    requires 1 <= m <= 12 && |time| >= 6
  {
    Seconds(y, m - 1, d, Parsed(time[..2]), Parsed(time[2..4]), Parsed(time[4..6])) * 1000 + Milliseconds(time)
  }

  lemma DateIsEpoch(y: int, m: nat, d: int, hour: int, min: int, sec: int)
    requires 1970 <= y < 32768 && 1 <= m <= 12
    ensures Computed(Tm(y - 1900, m - 1, d, hour, min, sec)) == Seconds(y, m - 1, d, hour, min, sec)
  {
    hide Computed, Seconds;
    EpochExactly(Tm(y - 1900, m - 1, d, hour, min, sec));
  }
}
