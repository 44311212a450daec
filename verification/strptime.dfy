/** `datetime.strptime(text, "%Y-%m-%d")` as Python's `_strptime` does it
    for texts written with ASCII digits: one regular expression,
    `(\d\d\d\d)-(1[0-2]|0[1-9]|[1-9])-(3[01]|[12]\d|0[1-9]|[1-9]| [1-9])`,
    matched at the start of the text, then a check that nothing is left
    over, then the `datetime` range checks (year at least 1, an existing
    day of the month). Each failure is a `ValueError`, here `None`. Here
    `\d` is an ASCII digit; Python's also matches the other Unicode
    decimal digits. */
module Strptime {
  import opened Wrappers
  import opened Text
  import opened CivilDate

  /** A matched field: its value and how many characters it took. */
  datatype Field = Field(value: nat, width: nat)

  /** The `%m` alternatives, first match wins. */
  function MonthField(t: string): (r: Option<Field>)
    ensures r.Some? ==> 1 <= r.value.value <= 12 && 1 <= r.value.width <= 2 && r.value.width <= |t|
  {
    if |t| >= 2 && t[0] == '1' && '0' <= t[1] <= '2' then Some(Field(10 + DigitValue(t[1]), 2))
    else if |t| >= 2 && t[0] == '0' && '1' <= t[1] <= '9' then Some(Field(DigitValue(t[1]), 2))
    else if |t| >= 1 && '1' <= t[0] <= '9' then Some(Field(DigitValue(t[0]), 1))
    else None
  }

  /** The `%d` alternatives, first match wins (a space may stand for a
      leading zero). */
  function DayField(t: string): (r: Option<Field>)
    ensures r.Some? ==> 1 <= r.value.value <= 31 && 1 <= r.value.width <= 2 && r.value.width <= |t|
  {
    if |t| >= 2 && t[0] == '3' && '0' <= t[1] <= '1' then Some(Field(30 + DigitValue(t[1]), 2))
    else if |t| >= 2 && '1' <= t[0] <= '2' && '0' <= t[1] <= '9' then Some(Field(10 * DigitValue(t[0]) + DigitValue(t[1]), 2))
    else if |t| >= 2 && t[0] == '0' && '1' <= t[1] <= '9' then Some(Field(DigitValue(t[1]), 2))
    else if |t| >= 1 && '1' <= t[0] <= '9' then Some(Field(DigitValue(t[0]), 1))
    else if |t| >= 2 && t[0] == ' ' && '1' <= t[1] <= '9' then Some(Field(DigitValue(t[1]), 2))
    else None
  }

  /** The parse: `None` for every text that raises `ValueError`. */
  function ParseYmd(s: string): (r: Option<Date>)
    ensures r.Some? ==> Valid(r.value) && r.value.year >= 1
  {
    if |s| < 5 || !AllDigits(s[..4]) || s[4] != '-' then None
    else
      match MonthField(s[5..])
      case None => None
      case Some(m) =>
        var rest := s[5 + m.width..];
        if |rest| == 0 || rest[0] != '-' then None
        else
          match DayField(rest[1..])
          case None => None
          case Some(d) =>
            if d.width != |rest| - 1 then None
            else
              DigitsBound(s[..4]);
              assert Pow10(4) == 10000;
              var y := DigitsValue(s[..4]);
              if 1 <= y && d.value <= DaysInMonth(y, m.value) then Some(Date(y, m.value, d.value)) else None
  }

  /** Every strict `YYYY-MM-DD` text of a day in year 1 or later is read as
      that day. */
  lemma StrptimeAcceptsIso(s: string)
    requires ParseIso(s).Some? && ParseIso(s).value.year >= 1
    ensures ParseYmd(s) == ParseIso(s)
  {
    var d := ParseIso(s).value;
    assert s[5..][0] == s[5] && s[5..][1] == s[6];
    assert DigitsValue(s[5..7]) == 10 * DigitValue(s[5]) + DigitValue(s[6]) by {
      assert s[5..7][..1] == [s[5]];
    }
    assert DigitsValue(s[8..]) == 10 * DigitValue(s[8]) + DigitValue(s[9]) by {
      assert s[8..][..1] == [s[8]];
    }
    assert s[5 + 2..] == s[7..];
    assert s[7..][1..] == s[8..];
  }

  /** The text of any day in year 1 or later reads back as that day. */
  lemma StrptimeIsoRoundTrip(d: Date)
    requires Valid(d) && d.year >= 1
    ensures ParseYmd(Iso(d)) == Some(d)
  {
    IsoRoundTrip(d);
    StrptimeAcceptsIso(Iso(d));
  }

  /** The parse is more lenient than the strict form: single-digit months
      and days are read. */
  lemma StrptimeSingleDigits()
    ensures ParseYmd("2026-1-5") == Some(Date(2026, 1, 5))
    ensures ParseIso("2026-1-5").None?
  {
    assert "2026-1-5"[..4] == "2026";
    assert DigitsValue("2026") == 2026 by {
      assert "2026"[..3] == "202" && "202"[..2] == "20" && "20"[..1] == "2" && "2"[..0] == "";
    }
    assert "2026-1-5"[5..] == "1-5";
    assert "2026-1-5"[6..] == "-5" && "-5"[1..] == "5";
  }

  /** Text after the day is refused ("unconverted data remains"). */
  lemma StrptimeTrailingText()
    ensures ParseYmd("2026-01-05x").None?
  {
    assert "2026-01-05x"[5..] == "01-05x";
    assert "2026-01-05x"[7..] == "-05x" && "-05x"[1..] == "05x";
  }

  /** Year 0 is a strict date but not a Python `datetime`. */
  lemma StrptimeYearZero()
    ensures ParseYmd("0000-01-05").None? && ParseIso("0000-01-05").Some?
  {
    assert "0000-01-05"[..4] == "0000";
    assert DigitsValue("0000") == 0 by {
      assert "0000"[..3] == "000" && "000"[..2] == "00" && "00"[..1] == "0" && "0"[..0] == "";
    }
    assert "0000-01-05"[5..] == "01-05";
    assert "0000-01-05"[7..] == "-05" && "-05"[1..] == "05";
    assert "0000-01-05"[5..7] == "01" && "0000-01-05"[8..] == "05";
    assert DigitsValue("01") == 1 by { assert "01"[..1] == "0" && "0"[..0] == ""; }
    assert DigitsValue("05") == 5 by { assert "05"[..1] == "0" && "0"[..0] == ""; }
  }
}
