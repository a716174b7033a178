/** The default expiry of a cache: the `TruffleCache.ExpiryInHours` setting
    read with `int.TryParse`, 24 hours otherwise, turned into a `TimeSpan`
    by `TimeSpan.FromHours`. */
module Expiry {
  import opened Results

  const Int32Min: int := -0x8000_0000
  const Int32Max: int := 0x7FFF_FFFF

  /** The expiry used when the setting is absent or does not parse. */
  const DefaultHours: int := 24

  const MillisPerHour: int := 3_600_000
  const TicksPerMillisecond: int := 10_000
  const TicksPerHour: int := MillisPerHour * TicksPerMillisecond

  /** `Int64.MaxValue / TicksPerMillisecond`, the bound `TimeSpan.FromHours` checks. */
  const MaxMillis: int := 922_337_203_685_477

  /** The largest number of hours, either sign, that `TimeSpan.FromHours` accepts. */
  const MaxHours: int := 256_204_778

  /** A duration in 100-nanosecond ticks. */
  datatype TimeSpan = TimeSpan(ticks: int)

  /** `TimeSpan.FromHours` on a whole number of hours (.NET Framework): the
      milliseconds are rounded half away from zero and must stay strictly
      inside `MaxMillis`, else `OverflowException`. */
  function FromHours(h: int): (r: Result<TimeSpan, Fault>)
    ensures r.Success? <==> -MaxHours <= h <= MaxHours
    ensures r.Success? ==> r.value.ticks == h * TicksPerHour
    ensures r.Failure? ==> r.error == ExpiryOverflow
  {
    // h * MillisPerHour is whole, so adding one half and comparing strictly
    // is the same as comparing the whole number with >=
    var millis := h * MillisPerHour;
    if millis >= MaxMillis || millis <= -MaxMillis then Failure(ExpiryOverflow)
    else Success(TimeSpan(millis * TicksPerMillisecond))
  }

  /** The duration of `h` hours, for an `h` that `FromHours` accepts. */
  function Hours(h: int): TimeSpan {
    TimeSpan(h * TicksPerHour)
  }

  /** White space that `int.TryParse` skips at either end (U+0009 to U+000D and U+0020). */
  predicate IsWhite(c: char) {
    c == ' ' || '\t' <= c <= '\r'
  }

  predicate IsDigit(c: char) {
    '0' <= c <= '9'
  }

  predicate AllDigits(s: string) {
    forall i :: 0 <= i < |s| ==> IsDigit(s[i])
  }

  function TrimStart(s: string): (r: string)
    ensures forall c :: c in r ==> c in s
    ensures r != [] ==> !IsWhite(r[0])
  {
    if s != [] && IsWhite(s[0]) then TrimStart(s[1..]) else s
  }

  function TrimEnd(s: string): (r: string)
    ensures forall c :: c in r ==> c in s
    ensures r <= s
  {
    if s != [] && IsWhite(s[|s| - 1]) then TrimEnd(s[..|s| - 1]) else s
  }

  /** The value of a string of decimal digits. */
  function DigitsValue(ds: string): nat
    requires AllDigits(ds)
  {
    if ds == [] then 0
    else DigitsValue(ds[..|ds| - 1]) * 10 + (ds[|ds| - 1] as int - '0' as int)
  }

  /** `int.TryParse` with the integer number style: optional white space
      around an optional sign and at least one decimal digit, within the
      32-bit range. `None` is the missing setting, for which it fails. */
  function TryParseInt32(setting: Option<string>): (r: Option<int>)
    ensures setting.None? ==> r.None?
    ensures r.Some? ==> Int32Min <= r.value <= Int32Max
    ensures r.Some? ==> exists i :: 0 <= i < |setting.value| && IsDigit(setting.value[i])
  {
    match setting
    case None => None
    case Some(s) =>
      var t := TrimEnd(TrimStart(s));
      var negative := t != [] && t[0] == '-';
      var digits := if t != [] && (t[0] == '-' || t[0] == '+') then t[1..] else t;
      if digits == [] || !AllDigits(digits) then None
      else
        assert digits[0] in t;
        var magnitude: int := DigitsValue(digits);
        var v := if negative then -magnitude else magnitude;
        if Int32Min <= v <= Int32Max then Some(v) else None
  }

  /** The decimal rendering of a natural number, the inverse partner of `DigitsValue`. */
  function Decimal(n: nat): (r: string)
    ensures r != [] && AllDigits(r)
    decreases n
  {
    var d := ('0' as int + n % 10) as char;
    if n < 10 then [d] else Decimal(n / 10) + [d]
  }

  lemma {:induction false} DecimalValue(n: nat)
    ensures DigitsValue(Decimal(n)) == n
    decreases n
  {
    var s := Decimal(n);
    assert s[..|s| - 1] == if n < 10 then [] else Decimal(n / 10);
    if n >= 10 {
      DecimalValue(n / 10);
    }
  }

  /** Parsing the decimal rendering of any 32-bit value gives that value back,
      with or without a minus sign. */
  lemma ParseDecimal(n: nat, negative: bool)
    requires negative ==> n <= -Int32Min
    requires !negative ==> n <= Int32Max
    ensures negative ==> TryParseInt32(Some("-" + Decimal(n))) == Some(-(n as int))
    ensures !negative ==> TryParseInt32(Some(Decimal(n))) == Some(n as int)
  {
    var d := Decimal(n);
    DecimalValue(n);
    assert d != [] && AllDigits(d) && DigitsValue(d) == n;
    if negative {
      ParseNegative(d);
      assert TryParseInt32(Some("-" + d)) == Some(-(n as int));
    } else {
      ParseDigits(d);
      assert TryParseInt32(Some(d)) == Some(n as int);
    }
  }

  /** Digits alone parse to their value when it is in the 32-bit range. */
  lemma ParseDigits(d: string)
    requires d != [] && AllDigits(d) && DigitsValue(d) <= Int32Max
    ensures TryParseInt32(Some(d)) == Some(DigitsValue(d) as int)
  {
    assert IsDigit(d[0]) && IsDigit(d[|d| - 1]);
    NothingToTrim(d);
  }

  /** A minus sign followed by digits parses to their negated value when it
      is in the 32-bit range. */
  lemma ParseNegative(d: string)
    requires d != [] && AllDigits(d) && DigitsValue(d) <= -Int32Min
    ensures TryParseInt32(Some("-" + d)) == Some(-(DigitsValue(d) as int))
  {
    var s := "-" + d;
    assert IsDigit(d[|d| - 1]);
    assert s[|s| - 1] == d[|d| - 1];
    assert s[0] == '-';
    NothingToTrim(s);
    assert s[1..] == d;
  }

  /** A string that neither starts nor ends with white space is not trimmed. */
  lemma NothingToTrim(s: string)
    requires s != [] && !IsWhite(s[0]) && !IsWhite(s[|s| - 1])
    ensures TrimEnd(TrimStart(s)) == s
  {
  }

  /** The configured number of hours: the setting if it parses, 24 otherwise. */
  function ConfiguredHours(setting: Option<string>): int {
    match TryParseInt32(setting)
    case Some(h) => h
    case None => DefaultHours
  }

  /** The default expiry a cache is constructed with. */
  function DefaultExpiry(setting: Option<string>): (r: Result<TimeSpan, Fault>)
    ensures setting.None? ==> r == Success(Hours(DefaultHours))
    ensures setting.Some? && (forall i :: 0 <= i < |setting.value| ==> !IsDigit(setting.value[i])) ==>
              r == Success(Hours(DefaultHours))
    ensures r.Success? ==> r.value == Hours(ConfiguredHours(setting))
    ensures r.Failure? ==> r.error == ExpiryOverflow
  {
    FromHours(ConfiguredHours(setting))
  }

  /** A setting holding the decimal number `n` yields `n` hours, or the
      overflow fault when `n` exceeds what a `TimeSpan` holds. */
  lemma SettingHours(n: nat)
    requires n <= Int32Max
    ensures n <= MaxHours ==> DefaultExpiry(Some(Decimal(n))) == Success(Hours(n))
    ensures n > MaxHours ==> DefaultExpiry(Some(Decimal(n))) == Failure(ExpiryOverflow)
  {
    ParseDecimal(n, false);
  }
}
