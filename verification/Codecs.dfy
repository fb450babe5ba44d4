/** Durations, hours and sizes in configuration files (core/include/config/util.hpp), in 64-bit arithmetic. */
module Codecs {
  import opened Wrappers

  const TWO_TO_THE_63 := 0x8000_0000_0000_0000
  const TWO_TO_THE_64 := 0x1_0000_0000_0000_0000

  // ---- decimal numbers ---------------------------------------------------------------------------------------

  predicate IsDigit(c: char) {
    '0' <= c <= '9'
  }

  predicate AllDigits(s: string) {
    forall i :: 0 <= i < |s| ==> IsDigit(s[i])
  }

  function Show(n: nat): string {
    if n < 10 then ['0' + n as char] else Show(n / 10) + ['0' + (n % 10) as char]
  }

  function Value(s: string): nat
    requires AllDigits(s)
  {
    if s == "" then 0 else Value(s[..|s| - 1]) * 10 + (s[|s| - 1] - '0') as int
  }

  function ShowInt(z: int): string {
    if z < 0 then "-" + Show(-z) else Show(z)
  }

  lemma {:induction false} ValueShow(n: nat)
    ensures Show(n) != "" && AllDigits(Show(n)) && Value(Show(n)) == n
  {
    if n >= 10 {
      ValueShow(n / 10);
      var s := Show(n);
      assert s[..|s| - 1] == Show(n / 10);
    } else {
      assert Show(n)[..0] == "";
    }
  }

  function Pow10(k: nat): nat {
    if k == 0 then 1 else 10 * Pow10(k - 1)
  }

  lemma {:induction false} ShowLength(n: nat, k: nat)
    requires k >= 1
    ensures |Show(n)| <= k <==> n < Pow10(k)
    decreases k
  {
    if k == 1 {
      assert Pow10(1) == 10;
      if n >= 10 { ValueShow(n / 10); }
    } else if n >= 10 {
      ShowLength(n / 10, k - 1);
      assert n / 10 < Pow10(k - 1) <==> n < 10 * Pow10(k - 1);
    } else {
      TenthPower(k);
    }
  }

  lemma {:induction false} TenthPower(k: nat)
    requires k >= 1
    ensures Pow10(k) >= 10
  {
    if k > 1 { TenthPower(k - 1); }
  }

  lemma NineDigits(n: nat)
    ensures |Show(n)| <= 9 <==> n < 1000000000
  {
    ShowLength(n, 9);
    assert Pow10(4) == 10000;
    assert Pow10(7) == 1000 * Pow10(4);
    assert Pow10(9) == 100 * Pow10(7);
  }

  // ---- durations ---------------------------------------------------------------------------------------------

  predicate IsAlpha(c: char) {
    'a' <= c <= 'z' || 'A' <= c <= 'Z'
  }

  function Unit(c: char): Option<nat> {
    if c == 's' || c == 'S' then Some(1)
    else if c == 'm' || c == 'M' then Some(60)
    else if c == 'h' || c == 'H' then Some(3600)
    else if c == 'd' || c == 'D' then Some(86400)
    else if c == 'w' || c == 'W' then Some(604800) else None
  }

  function ParseDuration(str: string): Option<int> {
    if str == "" then None
    else
      var last := str[|str| - 1];
      var digits := if IsAlpha(last) then str[..|str| - 1] else str;
      if digits == "" || |digits| > 9 || !AllDigits(digits) then None
      else
        match if IsAlpha(last) then Unit(last) else Some(1)
        case None => None
        case Some(unit) => Some(Value(digits) * unit)
  }

  /** The letter of the largest unit that states the duration exactly. */
  function Largest(d: int): char {
    if d != 0 && d % 604800 == 0 then 'w'
    else if d != 0 && d % 86400 == 0 then 'd'
    else if d != 0 && d % 3600 == 0 then 'h'
    else if d != 0 && d % 60 == 0 then 'm'
    else 's'
  }

  function Size(c: char): nat
    requires Unit(c).Some?
    ensures Size(c) >= 1
  {
    Unit(c).value
  }

  function ShowDuration(d: int): string {
    ShowInt(d / Size(Largest(d))) + [Largest(d)]
  }

  lemma LargestDivides(d: int)
    ensures d / Size(Largest(d)) * Size(Largest(d)) == d
  {
  }

  lemma Splits(str: string, c: char)
    requires IsAlpha(c)
    ensures ParseDuration(str + [c]) ==
      if str == "" || |str| > 9 || !AllDigits(str) || Unit(c).None? then None else Some(Value(str) * Unit(c).value)
  {
    assert (str + [c])[..|str|] == str;
  }

  /** What is accepted: up to nine digits, alone or with one of the letters of the units. */
  lemma DurationForm(str: string)
    ensures ParseDuration(str).Some? <==>
      || (1 <= |str| <= 9 && AllDigits(str))
      || (2 <= |str| <= 10 && AllDigits(str[..|str| - 1]) && str[|str| - 1] in "smhdwSMHDW")
  {
    if str != "" { assert IsDigit(str[|str| - 1]) ==> !IsAlpha(str[|str| - 1]); }
  }

  /** And what it says: seconds, minutes, hours, days or weeks, in either case. */
  lemma DurationText(n: nat, c: char, unit: nat)
    requires n < 1000000000
    requires (c in "sS" && unit == 1) || (c in "mM" && unit == 60) || (c in "hH" && unit == 3600)
      || (c in "dD" && unit == 86400) || (c in "wW" && unit == 604800)
    ensures ParseDuration(Show(n) + [c]) == Some(n * unit)
  {
    ValueShow(n);
    NineDigits(n);
    Splits(Show(n), c);
  }

  /** A number alone is seconds. */
  lemma DurationNumber(n: nat)
    requires n < 1000000000
    ensures ParseDuration(Show(n)) == Some(n)
  {
    ValueShow(n);
    NineDigits(n);
    assert IsDigit(Show(n)[|Show(n)| - 1]);
  }

  /** A duration is printed in the largest unit that states it exactly, and zero in seconds. */
  lemma LargestExactly(d: int)
    ensures Largest(d) == 'w' <==> d != 0 && d % 604800 == 0
    ensures Largest(d) == 'd' <==> d != 0 && d % 86400 == 0 && d % 604800 != 0
    ensures Largest(d) == 'h' <==> d != 0 && d % 3600 == 0 && d % 86400 != 0
    ensures Largest(d) == 'm' <==> d != 0 && d % 60 == 0 && d % 3600 != 0
    ensures Largest(d) == 's' <==> d == 0 || d % 60 != 0
  {
    Multiples(d);
  }

  lemma Multiples(d: int)
    ensures (d % 604800 == 0 ==> d % 86400 == 0) && (d % 86400 == 0 ==> d % 3600 == 0)
    ensures d % 3600 == 0 ==> d % 60 == 0
  {
    if d % 604800 == 0 { assert d == 86400 * (7 * (d / 604800)); }
    if d % 86400 == 0 { assert d == 3600 * (24 * (d / 86400)); }
    if d % 3600 == 0 { assert d == 60 * (60 * (d / 3600)); }
  }

  /** Printed and parsed, a duration comes back exactly when it is not negative and its count in its largest unit has at
      most nine digits; otherwise the text is refused. */
  lemma DurationExact(d: int)
    ensures ParseDuration(ShowDuration(d)) == if 0 <= d && d / Size(Largest(d)) < 1000000000 then Some(d) else None
  {
    var c := Largest(d);
    var n := d / Size(c);
    Splits(ShowInt(n), c);
    if d >= 0 {
      ValueShow(n);
      NineDigits(n);
      LargestDivides(d);
    } else {
      assert n < 0;
      assert ShowInt(n)[0] == '-';
    }
  }

  lemma UnitDivides(n: nat, c: char)
    requires Unit(c).Some?
    ensures n * Size(c) != 0 ==> Size(Largest(n * Size(c))) >= Size(c)
  {
    assert n * 60 % 60 == 0 && n * 3600 % 3600 == 0 && n * 86400 % 86400 == 0 && n * 604800 % 604800 == 0;
  }

  lemma MulGrows(a: nat, b: nat, c: nat)
    requires a <= b
    ensures a * c <= b * c
  {
  }

  lemma QuotientBound(d: nat, n: nat, u: nat)
    requires u >= 1 && d <= n * u
    ensures d / u <= n
  {
    var q := d / u;
    assert q * u <= d;
    if n < q { MulGrows(n + 1, q, u); }
  }

  /** The largest unit counts no more than any other that divides. */
  lemma LargestCounts(n: nat, c: char)
    requires Unit(c).Some?
    ensures var d := n * Size(c); d / Size(Largest(d)) <= n
  {
    var d := n * Size(c);
    var big := Size(Largest(d));
    UnitDivides(n, c);
    if d != 0 {
      MulGrows(Size(c), big, n);
      QuotientBound(d, n, big);
    }
  }

  lemma {:induction false} ValueBound(s: string)
    requires AllDigits(s)
    ensures Value(s) < Pow10(|s|)
  {
    if s != "" { ValueBound(s[..|s| - 1]); }
  }

  lemma {:induction false} PowGrows(m: nat, n: nat)
    requires m <= n
    ensures Pow10(m) <= Pow10(n)
  {
    if m < n { PowGrows(m, n - 1); }
  }

  /** Whatever text is accepted, its duration printed and parsed again is the same duration. */
  lemma DurationNormal(str: string)
    requires ParseDuration(str).Some?
    ensures ParseDuration(ShowDuration(ParseDuration(str).value)) == ParseDuration(str)
  {
    var last := str[|str| - 1];
    var digits := if IsAlpha(last) then str[..|str| - 1] else str;
    var c := if IsAlpha(last) then last else 's';
    var n := Value(digits);
    ValueBound(digits);
    PowGrows(|digits|, 9);
    NineDigits(0);
    assert Pow10(4) == 10000;
    assert Pow10(7) == 1000 * Pow10(4);
    assert Pow10(9) == 100 * Pow10(7);
    assert ParseDuration(str) == Some(n * Size(c));
    LargestCounts(n, c);
    DurationExact(n * Size(c));
  }

  // ---- strtoul -----------------------------------------------------------------------------------------------

  predicate IsSpace(c: char) {
    c == ' ' || '\t' <= c <= '\r'
  }

  function SkipSpace(s: string): string {
    if s != "" && IsSpace(s[0]) then SkipSpace(s[1..]) else s
  }

  function Prefix(s: string): (n: nat)
    ensures n <= |s|
  {
    if s != "" && IsDigit(s[0]) then 1 + Prefix(s[1..]) else 0
  }

  lemma {:induction false} PrefixDigits(s: string)
    ensures AllDigits(s[..Prefix(s)])
  {
    if s != "" && IsDigit(s[0]) {
      PrefixDigits(s[1..]);
      assert s[..Prefix(s)] == [s[0]] + s[1..][..Prefix(s[1..])];
    }
  }

  /** std::stoul and std::stoull: blanks, a sign, digits; whatever follows them is ignored. A minus sign negates
      modulo 2^64. */
  function Stoul(s: string): Option<nat> {
    var t := SkipSpace(s);
    var signed := t != "" && (t[0] == '-' || t[0] == '+');
    var u := if signed then t[1..] else t;
    PrefixDigits(u);
    var v := Value(u[..Prefix(u)]);
    if Prefix(u) == 0 || v >= TWO_TO_THE_64 then None
    else Some(if signed && t[0] == '-' then (TWO_TO_THE_64 - v) % TWO_TO_THE_64 else v)
  }

  lemma {:induction false} PrefixAll(s: string)
    requires AllDigits(s)
    ensures Prefix(s) == |s|
  {
    if s != "" { PrefixAll(s[1..]); }
  }

  lemma StoulDigits(digits: string)
    requires digits != "" && AllDigits(digits)
    ensures Stoul(digits) == if Value(digits) >= TWO_TO_THE_64 then None else Some(Value(digits))
  {
    PrefixAll(digits);
    assert digits[..|digits|] == digits && IsDigit(digits[0]);
  }

  lemma StoulNegative(digits: string)
    requires digits != "" && AllDigits(digits) && Value(digits) < TWO_TO_THE_64
    ensures Stoul("-" + digits) == Some((TWO_TO_THE_64 - Value(digits)) % TWO_TO_THE_64)
  {
    PrefixAll(digits);
    assert ("-" + digits)[1..] == digits && digits[..|digits|] == digits;
  }

  lemma NegativeMod(n: int)
    requires 0 <= n < TWO_TO_THE_64
    ensures (TWO_TO_THE_64 - n) % TWO_TO_THE_64 == (-n) % TWO_TO_THE_64
  {
    SameMod(-n, -1);
  }

  lemma StoulShow(z: int)
    requires -TWO_TO_THE_64 < z < TWO_TO_THE_64
    ensures Stoul(ShowInt(z)) == Some(z % TWO_TO_THE_64)
  {
    var n := if z < 0 then -z else z;
    ValueShow(n);
    if z < 0 {
      StoulNegative(Show(n));
      NegativeMod(n);
    } else {
      StoulDigits(Show(n));
    }
  }

  // ---- hours -------------------------------------------------------------------------------------------------

  function ToInt64(v: nat): int
    requires v < TWO_TO_THE_64
  {
    if v >= TWO_TO_THE_63 then v - TWO_TO_THE_64 else v
  }

  function Scaled(v: Option<nat>, factor: nat): Option<nat> {
    match v case None => None case Some(n) => Some(n * factor % TWO_TO_THE_64)
  }

  function ParseHours(str: string): Option<int> {
    if str == "" then None
    else
      var last, rest := str[|str| - 1], str[..|str| - 1];
      match
        if last == 'd' || last == 'D' then Scaled(Stoul(rest), 24)
        else if last == 'h' || last == 'H' then Scaled(Stoul(rest), 1)
        else Scaled(Stoul(str), 1)
      case None => None
      case Some(v) => Some(ToInt64(v))
  }

  function ShowHours(h: int): string {
    if h % 24 == 0 then ShowInt(h / 24) + "d" else ShowInt(h) + "h"
  }

  lemma Wraps(z: int, factor: nat)
    requires -TWO_TO_THE_63 <= z * factor < TWO_TO_THE_63
    ensures ToInt64(z % TWO_TO_THE_64 * factor % TWO_TO_THE_64) == z * factor
  {
    var q := z / TWO_TO_THE_64;
    assert z % TWO_TO_THE_64 == z - q * TWO_TO_THE_64;
    assert z % TWO_TO_THE_64 * factor == z * factor - q * factor * TWO_TO_THE_64 by {
      assert (z - q * TWO_TO_THE_64) * factor == z * factor - q * TWO_TO_THE_64 * factor;
    }
    SameMod(z * factor, q * factor);
  }

  lemma SameMod(x: int, k: int)
    ensures (x - k * TWO_TO_THE_64) % TWO_TO_THE_64 == x % TWO_TO_THE_64
  {
  }

  /** Hours are printed in days exactly when they are whole days, and sizes in gigabytes when they are whole ones. */
  lemma UnitsPrinted(h: int, bytes: nat)
    ensures var t := ShowHours(h); t != "" && t[|t| - 1] == if h % 24 == 0 then 'd' else 'h'
    ensures var t := ShowSize(bytes); |t| > 2 && t[|t| - 2..] == if bytes % 0x4000_0000 == 0 then "GB" else "MB"
  {
    ValueShow(bytes / GIB);
    ValueShow(bytes / MIB);
  }

  /** Every 64-bit number of hours, negative ones included, comes back. */
  lemma HoursRoundTrip(h: int)
    requires -TWO_TO_THE_63 <= h < TWO_TO_THE_63
    ensures ParseHours(ShowHours(h)) == Some(h)
  {
    var text := ShowHours(h);
    if h % 24 == 0 {
      assert text[..|text| - 1] == ShowInt(h / 24);
      StoulShow(h / 24);
      Wraps(h / 24, 24);
    } else {
      assert text[..|text| - 1] == ShowInt(h);
      StoulShow(h);
      Wraps(h, 1);
    }
  }

  /** A text that ends with a digit and is read as the number. */
  predicate Reads(t: string, n: nat) {
    t != "" && IsDigit(t[|t| - 1]) && Stoul(t) == Some(n)
  }

  lemma HoursOf(t: string, n: nat, c: char, unit: nat)
    requires Reads(t, n) && n * unit < TWO_TO_THE_63 && ((c in "dD" && unit == 24) || (c in "hH" && unit == 1))
    ensures ParseHours(t + [c]) == Some(n * unit)
  {
    assert (t + [c])[|t|] == c && (t + [c])[..|t|] == t;
  }

  lemma HoursAlone(t: string, n: nat)
    requires Reads(t, n) && n < TWO_TO_THE_63
    ensures ParseHours(t) == Some(n)
  {
  }

  /** Days and hours, in either case. */
  lemma HoursText(n: nat, c: char, unit: nat)
    requires n * unit < TWO_TO_THE_63 && ((c in "dD" && unit == 24) || (c in "hH" && unit == 1))
    ensures ParseHours(Show(n) + [c]) == Some(n * unit)
  {
    StoulNat(n);
    HoursOf(Show(n), n, c, unit);
  }

  /** A number alone is hours. */
  lemma HoursNumber(n: nat)
    requires n < TWO_TO_THE_63
    ensures ParseHours(Show(n)) == Some(n)
  {
    StoulNat(n);
    HoursAlone(Show(n), n);
  }

  // ---- sizes -------------------------------------------------------------------------------------------------

  const MIB := 0x10_0000
  const GIB := 0x4000_0000

  predicate Ends(str: string, c: char) {
    |str| > 1 && str[|str| - 1] == c
  }

  predicate EndsB(str: string, c: char, b: char) {
    |str| > 2 && str[|str| - 2] == c && str[|str| - 1] == b
  }

  /** How many characters the unit takes, and how many bytes it stands for. */
  function SizeUnit(str: string): (u: (nat, nat))
    ensures u.0 <= |str|
  {
    if EndsB(str, 'G', 'B') || EndsB(str, 'g', 'b') then (2, GIB)
    else if Ends(str, 'G') || Ends(str, 'g') then (1, GIB)
    else if EndsB(str, 'M', 'B') || EndsB(str, 'm', 'b') then (2, MIB)
    else if Ends(str, 'M') || Ends(str, 'm') then (1, MIB)
    else (0, MIB)
  }

  function ParseSize(str: string): Option<nat> {
    if str == "" then None else Scaled(Stoul(str[..|str| - SizeUnit(str).0]), SizeUnit(str).1)
  }

  function ShowSize(bytes: nat): string {
    if bytes % GIB == 0 then Show(bytes / GIB) + "GB" else Show(bytes / MIB) + "MB"
  }

  lemma StoulNat(n: nat)
    requires n < TWO_TO_THE_64
    ensures Reads(Show(n), n)
  {
    ValueShow(n);
    StoulDigits(Show(n));
  }

  lemma SizeOf(t: string, n: nat, unit: string, bytes: nat)
    requires Reads(t, n) && n * bytes < TWO_TO_THE_64
    requires (unit in ["GB", "gb", "G", "g"] && bytes == GIB) || (unit in ["MB", "mb", "M", "m", ""] && bytes == MIB)
    ensures ParseSize(t + unit) == Some(n * bytes)
  {
    SizeUnitOf(t, unit);
    assert (t + unit)[..|t|] == t;
  }

  /** Gigabytes and megabytes, of 2^30 and 2^20 bytes, in either case and with or without the B, and megabytes without
      a unit. */
  lemma SizeText(n: nat, unit: string, bytes: nat)
    requires n < TWO_TO_THE_64 && n * bytes < TWO_TO_THE_64
    requires (unit in ["GB", "gb", "G", "g"] && bytes == 0x4000_0000)
      || (unit in ["MB", "mb", "M", "m", ""] && bytes == 0x10_0000)
    ensures ParseSize(Show(n) + unit) == Some(n * bytes)
  {
    StoulNat(n);
    SizeOf(Show(n), n, unit, bytes);
  }

  lemma SizeUnitOf(t: string, unit: string)
    requires t != "" && IsDigit(t[|t| - 1]) && unit in ["GB", "gb", "G", "g", "MB", "mb", "M", "m", ""]
    ensures SizeUnit(t + unit) == (|unit|, if unit in ["GB", "gb", "G", "g"] then GIB else MIB)
  {
    var s, n := t + unit, |t|;
    assert s[n - 1] == t[n - 1];
  }

  lemma GibFloor(bytes: nat)
    requires bytes % GIB == 0
    ensures bytes / GIB * GIB == bytes && bytes % MIB == 0
  {
    assert bytes == MIB * (1024 * (bytes / GIB));
  }

  lemma MibFloor(bytes: nat)
    ensures bytes / MIB * MIB == bytes - bytes % MIB
  {
  }

  lemma GibRoundTrip(bytes: nat)
    requires bytes < TWO_TO_THE_64 && bytes % GIB == 0
    ensures ParseSize(Show(bytes / GIB) + "GB") == Some(bytes - bytes % MIB)
  {
    GibFloor(bytes);
    SizeText(bytes / GIB, "GB", GIB);
  }

  lemma MibRoundTrip(bytes: nat)
    requires bytes < TWO_TO_THE_64
    ensures ParseSize(Show(bytes / MIB) + "MB") == Some(bytes - bytes % MIB)
  {
    MibFloor(bytes);
    SizeText(bytes / MIB, "MB", MIB);
  }

  /** Every 64-bit size comes back rounded down to a whole MiB, and no product overflows. */
  lemma SizeRoundTrip(bytes: nat)
    requires bytes < TWO_TO_THE_64
    ensures ParseSize(ShowSize(bytes)) == Some(bytes - bytes % MIB)
  {
    if bytes % GIB == 0 { GibRoundTrip(bytes); } else { MibRoundTrip(bytes); }
  }
}
