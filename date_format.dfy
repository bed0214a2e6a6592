/**
 * The two date texts the audit trail uses: the repositories stamp each entry
 * with `LocalDateTime.now()` formatted by the pattern "yyyy-MM-dd HH:mm:ss",
 * and the audit viewer compares it with a picked `LocalDate` formatted by
 * `DateTimeFormatter.ISO_LOCAL_DATE`.
 */
module DateFormat {
  import opened JavaLang

  datatype Date = Date(year: int, month: int, day: int)

  /** java.time.LocalDate's year range and field ranges. */
  type LocalDate = d: Date | -999_999_999 <= d.year <= 999_999_999 && 1 <= d.month <= 12 && 1 <= d.day <= 31
    witness Date(2000, 1, 1)

  datatype DateTime = DateTime(date: LocalDate, hour: int, minute: int, second: int)

  /** java.time.LocalDateTime at second precision. */
  type LocalDateTime = t: DateTime | 0 <= t.hour < 24 && 0 <= t.minute < 60 && 0 <= t.second < 60
    witness DateTime(Date(2000, 1, 1), 0, 0, 0)

  function Pow10(w: nat): nat
  {
    if w == 0 then 1 else 10 * Pow10(w - 1)
  }

  function Zeros(n: nat): (z: string)
    ensures |z| == n && AllDigits(z)
  {
    seq(n, _ => '0')
  }

  /** `n` in decimal, left-padded with zeros to at least `width` digits. */
  function Pad(n: nat, width: nat): (s: string)
    ensures AllDigits(s) && DigitsValue(s) == n
    ensures 1 <= width && n < Pow10(width) ==> |s| == width
    ensures |s| >= 1
  {
    var ds := NatToDigits(n);
    DigitsRoundTrip(n);
    DigitCount(n, width);
    if |ds| < width then
      LeadingZeros(width - |ds|, ds);
      Zeros(width - |ds|) + ds
    else ds
  }

  lemma {:induction false} DigitCount(n: nat, width: nat)
    ensures 1 <= width && n < Pow10(width) ==> |NatToDigits(n)| <= width
  {
    if n >= 10 && width > 1 && n < Pow10(width) {
      assert n / 10 < Pow10(width - 1);
      DigitCount(n / 10, width - 1);
    }
  }

  lemma {:induction false} LeadingZeros(k: nat, ds: string)
    requires AllDigits(ds)
    ensures AllDigits(Zeros(k) + ds) && DigitsValue(Zeros(k) + ds) == DigitsValue(ds)
    decreases |ds|
  {
    var s := Zeros(k) + ds;
    if ds == [] {
      assert s == Zeros(k);
      ZerosValue(k);
    } else {
      var front := ds[..|ds| - 1];
      LeadingZeros(k, front);
      assert s[..|s| - 1] == Zeros(k) + front;
    }
  }

  lemma {:induction false} ZerosValue(k: nat)
    ensures DigitsValue(Zeros(k)) == 0
  {
    if k > 0 {
      ZerosValue(k - 1);
      assert Zeros(k)[..k - 1] == Zeros(k - 1);
    }
  }

  /** The year under a 4-wide, EXCEEDS_PAD sign style: a sign only beyond 9999 or below 0. */
  function YearText(year: int): string
  {
    if 0 <= year <= 9999 then Pad(year, 4)
    else if year > 9999 then "+" + NatToDigits(year)
    else "-" + Pad(-year, 4)
  }

  /** DateTimeFormatter.ISO_LOCAL_DATE, as "uuuu-MM-dd". */
  function IsoLocalDate(d: LocalDate): string
  {
    YearText(d.year) + "-" + Pad(d.month, 2) + "-" + Pad(d.day, 2)
  }

  /** The pattern letters "yyyy" print the year of era: 1 - year for years up to 0. */
  function YearOfEra(year: int): nat
  {
    if year >= 1 then year else 1 - year
  }

  /** The entry timestamp: `now.format(DateTimeFormatter.ofPattern("yyyy-MM-dd HH:mm:ss"))`. */
  function AuditTimestamp(t: LocalDateTime): string
  {
    var era := YearOfEra(t.date.year);
    (if era <= 9999 then Pad(era, 4) else "+" + NatToDigits(era))
      + "-" + Pad(t.date.month, 2) + "-" + Pad(t.date.day, 2)
      + " " + Pad(t.hour, 2) + ":" + Pad(t.minute, 2) + ":" + Pad(t.second, 2)
  }

  /** The ten-character "yyyy-MM-dd" text shared by both formats for years 0..9999. */
  function DayText(year: nat, month: nat, day: nat): (s: string)
    requires year <= 9999 && month <= 99 && day <= 99
    ensures |s| == 10
  {
    Pad(year, 4) + "-" + Pad(month, 2) + "-" + Pad(day, 2)
  }

  lemma DayTextInjective(y1: nat, m1: nat, d1: nat, y2: nat, m2: nat, d2: nat)
    requires y1 <= 9999 && m1 <= 99 && d1 <= 99
    requires y2 <= 9999 && m2 <= 99 && d2 <= 99
    requires DayText(y1, m1, d1) == DayText(y2, m2, d2)
    ensures y1 == y2 && m1 == m2 && d1 == d2
  {
    var s1, s2 := DayText(y1, m1, d1), DayText(y2, m2, d2);
    assert s1[..4] == Pad(y1, 4) && s2[..4] == Pad(y2, 4);
    assert s1[5..7] == Pad(m1, 2) && s2[5..7] == Pad(m2, 2);
    assert s1[8..] == Pad(d1, 2) && s2[8..] == Pad(d2, 2);
  }

  /**
   * For an entry stamped in the years 1..9999, its timestamp starts with the
   * ISO text of a picked date exactly when the entry was stamped on that day.
   */
  lemma TimestampOnDay(picked: LocalDate, t: LocalDateTime)
    requires 1 <= t.date.year <= 9999
    ensures StartsWith(AuditTimestamp(t), IsoLocalDate(picked)) <==> picked == t.date
  {
    var stamp := AuditTimestamp(t);
    var day := DayText(t.date.year, t.date.month, t.date.day);
    var time := " " + Pad(t.hour, 2) + ":" + Pad(t.minute, 2) + ":" + Pad(t.second, 2);
    assert stamp == day + time;
    assert IsDigit(stamp[0]) by {
      assert stamp[0] == Pad(t.date.year, 4)[0];
    }
    var iso := IsoLocalDate(picked);
    if 0 <= picked.year <= 9999 {
      assert iso == DayText(picked.year, picked.month, picked.day);
      if iso <= stamp {
        assert stamp[..10] == day;
        DayTextInjective(picked.year, picked.month, picked.day, t.date.year, t.date.month, t.date.day);
      }
    } else {
      assert iso[0] == '+' || iso[0] == '-';
    }
  }
}
