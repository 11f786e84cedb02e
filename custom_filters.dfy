/**
 * The `format_minutes` template filter: a signed number of minutes shown
 * as `[-]HH:MM`, with both fields zero-padded to at least two digits.
 */
module CustomFilters {
  import opened Wrappers
  import opened Text

  /** A non-negative number of minutes as hours, a colon and two minute digits. */
  function HoursMinutes(n: nat): string {
    Pad2(n / 60) + ":" + Pad2(n % 60)
  }

  /**
   * `format_minutes`: the empty value shows as "00:00"; otherwise a minus
   * sign for a negative amount, then the whole hours and the remaining
   * minutes of its magnitude.
   */
  function FormatMinutes(total: Option<int>): (r: string)
    ensures total == None ==> r == "00:00"
    ensures |r| >= 5
    ensures total.Some? ==> (r[0] == '-' <==> total.value < 0)
  {
    match total
    case None => "00:00"
    case Some(m) =>
      var sign := if m < 0 then "-" else "";
      sign + HoursMinutes(Abs(m))
  }

  /**
   * Reads `H...H:MM` back: at least one hour digit, a colon and exactly
   * two minute digits below 60.
   */
  function ParseClock(body: string): (r: Option<nat>)
    ensures r.Some? ==> |body| >= 4 && IsDigit(body[0])
  {
    if |body| < 4 || body[|body| - 3] != ':' then None
    else
      var hh := body[..|body| - 3];
      var mm := body[|body| - 2..];
      if !AllDigits(hh) || !AllDigits(mm) || DigitsValue(mm) >= 60 then None
      else
        assert hh[0] == body[0];
        Some(DigitsValue(hh) * 60 + DigitsValue(mm))
  }

  /** Reads `[-]H...H:MM` back: an optional minus sign, then `ParseClock`. */
  function ParseMinutes(s: string): (r: Option<int>)
    ensures r.Some? && r.value < 0 ==> |s| > 0 && s[0] == '-'
  {
    if |s| > 0 && s[0] == '-' then
      match ParseClock(s[1..])
      case None => None
      case Some(v) => Some(-(v as int))
    else
      match ParseClock(s)
      case None => None
      case Some(v) => Some(v)
  }

  /** The two fields of `HH:MM`, read back as numbers. */
  lemma ClockFields(h: nat, mn: nat)
    requires mn < 60
    ensures var body := Pad2(h) + ":" + Pad2(mn);
      && |body| >= 5 && body[|body| - 3] == ':'
      && AllDigits(body[..|body| - 3]) && DigitsValue(body[..|body| - 3]) == h
      && AllDigits(body[|body| - 2..]) && DigitsValue(body[|body| - 2..]) == mn
  {
    var hh := Pad2(h);
    var mm := Pad2(mn);
    var body := hh + ":" + mm;
    assert |mm| == 2;
    assert body[..|body| - 3] == hh;
    assert body[|body| - 2..] == mm;
  }

  /** The clock part of a formatted amount reads back as that amount. */
  lemma ParseHoursMinutes(n: nat)
    ensures ParseClock(HoursMinutes(n)) == Some(n)
  {
    ClockFields(n / 60, n % 60);
    assert n / 60 * 60 + n % 60 == n;
  }

  /** Reading a formatted amount back gives the amount: sign × (hours × 60 + minutes). */
  lemma ParseFormat(m: int)
    ensures ParseMinutes(FormatMinutes(Some(m))) == Some(m)
  {
    var body := HoursMinutes(Abs(m));
    ParseHoursMinutes(Abs(m));
    if m < 0 {
      assert FormatMinutes(Some(m)) == "-" + body;
      assert ("-" + body)[1..] == body;
    } else {
      assert FormatMinutes(Some(m)) == "" + body == body;
      assert body[0] != '-';
    }
  }

  /** A negative amount prints as its magnitude with a minus sign in front. */
  lemma FormatNegation(m: int)
    requires m > 0
    ensures FormatMinutes(Some(-m)) == "-" + FormatMinutes(Some(m))
  {
    assert Abs(-m) == m && Abs(m) == m;
    assert "" + HoursMinutes(m) == HoursMinutes(m);
  }
}
