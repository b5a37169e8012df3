/** The text conversions of the record codec: fixed-width padding and
    truncation, and the int <-> text conversions used for the numeric fields,
    together with the few java.lang.String operations they rest on (trim,
    toUpperCase, startsWith, split on commas, Integer.toString and
    Integer.parseInt). Characters are modelled as Dafny chars; upper-casing
    is ASCII-only. */
module StringHelper {
  import opened Wrappers

  /** Bounds of Java's 32-bit `int`. */
  const MIN_INT: int := -0x8000_0000
  const MAX_INT: int := 0x7fff_ffff

  /** A value of Java type `int`. */
  type Int32 = x: int | MIN_INT <= x <= MAX_INT

  // ---------------------------------------------------------------------
  // java.lang.String primitives
  // ---------------------------------------------------------------------

  /** `String.trim` removes every leading and trailing character whose code
      is at most U+0020. */
  predicate IsTrimmable(c: char) {
    c <= ' '
  }

  predicate AllTrimmable(s: string) {
    forall i :: 0 <= i < |s| ==> IsTrimmable(s[i])
  }

  function TrimLeading(s: string): (r: string)
    ensures |r| <= |s|
    ensures r == [] || !IsTrimmable(r[0])
  {
    if |s| > 0 && IsTrimmable(s[0]) then TrimLeading(s[1..]) else s
  }

  function TrimTrailing(s: string): (r: string)
    ensures |r| <= |s| && forall i :: 0 <= i < |r| ==> r[i] == s[i]
    ensures r == [] || !IsTrimmable(r[|r| - 1])
  {
    if |s| > 0 && IsTrimmable(s[|s| - 1]) then TrimTrailing(s[..|s| - 1]) else s
  }

  /** `String.trim()`. */
  function Trim(s: string): (r: string)
    ensures |r| <= |s|
    ensures r == [] || (!IsTrimmable(r[0]) && !IsTrimmable(r[|r| - 1]))
  {
    TrimTrailing(TrimLeading(s))
  }

  /** A string that `trim` leaves alone: empty, or with a non-blank character
      at each end. */
  predicate IsTrimmed(s: string) {
    s == [] || (!IsTrimmable(s[0]) && !IsTrimmable(s[|s| - 1]))
  }

  /** `Character.toUpperCase`, restricted to ASCII letters. */
  function UpperChar(c: char): char {
    if 'a' <= c <= 'z' then (c as int - 32) as char else c
  }

  /** `String.toUpperCase()`, restricted to ASCII letters. */
  function ToUpperCase(s: string): (r: string)
    ensures |r| == |s|
  {
    seq(|s|, i requires 0 <= i < |s| => UpperChar(s[i]))
  }

  /** `Character.toLowerCase`, restricted to ASCII letters. */
  function LowerChar(c: char): char {
    if 'A' <= c <= 'Z' then (c as int + 32) as char else c
  }

  /** `String.toLowerCase()`, restricted to ASCII letters. */
  function ToLowerCase(s: string): (r: string)
    ensures |r| == |s|
  {
    seq(|s|, i requires 0 <= i < |s| => LowerChar(s[i]))
  }

  /** `s.startsWith(prefix)`. */
  predicate StartsWith(s: string, prefix: string) {
    |prefix| <= |s| && s[..|prefix|] == prefix
  }

  /** `s.split(",")`, keeping trailing empty pieces (Java drops them; every
      use in the core discards blank pieces anyway). */
  function SplitComma(s: string): (r: seq<string>)
    ensures |r| > 0
  {
    if s == [] then [""]
    else
      var rest := SplitComma(s[1..]);
      if s[0] == ',' then [""] + rest else [[s[0]] + rest[0]] + rest[1..]
  }

  // ---------------------------------------------------------------------
  // Integer.toString and Integer.parseInt
  // ---------------------------------------------------------------------

  predicate IsDigit(c: char) {
    '0' <= c <= '9'
  }

  predicate AllDigits(s: string) {
    forall i :: 0 <= i < |s| ==> IsDigit(s[i])
  }

  function DigitChar(d: int): (c: char)
    requires 0 <= d < 10
    ensures IsDigit(c)
  {
    ('0' as int + d) as char
  }

  /** The decimal digits of `n`, most significant first, without leading
      zeros. */
  function Digits(n: nat): (r: string)
    ensures |r| > 0 && AllDigits(r)
    ensures |r| > 1 ==> r[0] != '0'
  {
    if n < 10 then [DigitChar(n)] else Digits(n / 10) + [DigitChar(n % 10)]
  }

  /** The number a string of decimal digits denotes. */
  function DigitsValue(s: string): nat
    requires AllDigits(s)
  {
    if s == [] then 0
    else DigitsValue(s[..|s| - 1]) * 10 + (s[|s| - 1] as int - '0' as int)
  }

  /** `Integer.toString(v)`. */
  function Decimal(v: int): (r: string)
    ensures |r| > 0 && IsTrimmed(r)
  {
    if v < 0 then "-" + Digits(-v) else Digits(v)
  }

  function InRange(v: int): Option<Int32> {
    if MIN_INT <= v <= MAX_INT then Some(v) else None
  }

  /** `Integer.parseInt(s)` (and `Integer.valueOf(s)`): an optional sign and
      at least one decimal digit, denoting a value inside the `int` range;
      `None` stands for NumberFormatException. */
  function ParseInt(s: string): (r: Option<Int32>)
    ensures r.Some? ==> |s| > 0
  {
    if |s| == 0 then None
    else if s[0] == '-' || s[0] == '+' then
      if |s| == 1 || !AllDigits(s[1..]) then None
      else
        var magnitude: int := DigitsValue(s[1..]);
        InRange(if s[0] == '-' then -magnitude else magnitude)
    else if AllDigits(s) then InRange(DigitsValue(s))
    else None
  }

  // ---------------------------------------------------------------------
  // StringHelper proper
  // ---------------------------------------------------------------------

  function NulToSpace(c: char): char {
    if c == '\0' then ' ' else c
  }

  /** `StringHelper.setStringLength`: `StringBuilder.setLength(length)` (cut
      to `length`, or extend with NUL characters), then every NUL replaced by
      a space. */
  function SetStringLength(s: string, length: nat): (r: string)
    ensures |r| == length
    ensures forall i :: 0 <= i < length ==>
              r[i] == (if i < |s| then NulToSpace(s[i]) else ' ')
    ensures '\0' !in r
  {
    var buf := if |s| >= length then s[..length] else s + seq(length - |s|, _ => '\0');
    seq(|buf|, i requires 0 <= i < |buf| => NulToSpace(buf[i]))
  }

  /** `StringHelper.intValue(string, defaultValue)`: the int `trim(string)`
      denotes, or `defaultValue` when it does not parse. */
  function IntValueOr(s: string, defaultValue: Int32): (r: Int32)
    ensures ParseInt(Trim(s)).Some? ==> r == ParseInt(Trim(s)).value
    ensures ParseInt(Trim(s)).None? ==> r == defaultValue
  {
    match ParseInt(Trim(s))
    case Some(v) => v
    case None => defaultValue
  }

  /** `StringHelper.intValue(string)`: zero stands in for text that does not
      parse. */
  function IntValue(s: string): (r: Int32)
    ensures r == IntValueOr(s, 0)
  {
    IntValueOr(s, 0)
  }

  /** `StringHelper.toString(value, emptyValue)`: the empty string stands for
      `emptyValue`, every other value is written in decimal. */
  function ToString(value: Int32, emptyValue: Int32): (r: string)
    ensures r == [] <==> value == emptyValue
    ensures value != emptyValue ==> IsTrimmed(r) && '\0' !in r && ParseInt(r) == Some(value)
  {
    if value == emptyValue then ""
    else
      DecimalRoundTrip(value);
      Decimal(value)
  }

  // ---------------------------------------------------------------------
  // Lemmas
  // ---------------------------------------------------------------------

  lemma {:induction false} DigitsRoundTrip(n: nat)
    ensures DigitsValue(Digits(n)) == n
  {
    if n >= 10 {
      DigitsRoundTrip(n / 10);
      var d := Digits(n / 10);
      assert (d + [DigitChar(n % 10)])[..|d|] == d;
    }
  }

  /** `Integer.parseInt(Integer.toString(v)) == v` for every `int`. */
  lemma DecimalRoundTrip(v: int)
    requires MIN_INT <= v <= MAX_INT
    ensures ParseInt(Decimal(v)) == Some(v)
    ensures '\0' !in Decimal(v)
  {
    if v < 0 {
      DigitsRoundTrip(-v);
      assert Decimal(v)[1..] == Digits(-v);
    } else {
      DigitsRoundTrip(v);
    }
  }

  lemma {:induction false} TrimPadded(s: string, pad: string)
    requires IsTrimmed(s) && AllTrimmable(pad)
    ensures Trim(s + pad) == s
  {
    if s == [] {
      assert s + pad == pad;
      TrimBlank(pad);
    } else {
      assert TrimLeading(s + pad) == s + pad;
      TrimTrailingPadded(s, pad);
    }
  }

  lemma {:induction false} TrimTrailingPadded(s: string, pad: string)
    requires s != [] && !IsTrimmable(s[|s| - 1]) && AllTrimmable(pad)
    ensures TrimTrailing(s + pad) == s
  {
    if pad != [] {
      var shorter := pad[..|pad| - 1];
      assert (s + pad)[..|s + pad| - 1] == s + shorter;
      TrimTrailingPadded(s, shorter);
    }
  }

  /** A string of blanks trims to the empty string. */
  lemma TrimBlank(s: string)
    requires AllTrimmable(s)
    ensures Trim(s) == []
  {
    TrimLeadingBlank(s);
  }

  lemma {:induction false} TrimLeadingBlank(s: string)
    requires AllTrimmable(s)
    ensures TrimLeading(s) == []
  {
    if s != [] {
      assert AllTrimmable(s[1..]) by {
        forall i | 0 <= i < |s[1..]| ensures IsTrimmable(s[1..][i]) {
          assert s[1..][i] == s[i + 1];
        }
      }
      TrimLeadingBlank(s[1..]);
    }
  }

  /** Conversely, text that trims to nothing is all blanks. */
  lemma TrimEmptyIsBlank(s: string)
    requires Trim(s) == []
    ensures AllTrimmable(s)
  {
    TrimTrailingEmpty(TrimLeading(s));
    TrimLeadingEmpty(s);
  }

  lemma {:induction false} TrimTrailingEmpty(s: string)
    requires TrimTrailing(s) == []
    ensures AllTrimmable(s)
  {
    if s != [] {
      var shorter := s[..|s| - 1];
      TrimTrailingEmpty(shorter);
      assert forall i :: 0 <= i < |shorter| ==> shorter[i] == s[i];
    }
  }

  lemma {:induction false} TrimLeadingEmpty(s: string)
    requires AllTrimmable(TrimLeading(s))
    ensures AllTrimmable(s)
  {
    if s != [] && IsTrimmable(s[0]) {
      TrimLeadingEmpty(s[1..]);
      assert forall i :: 1 <= i < |s| ==> s[i] == s[1..][i - 1];
    }
  }

  /** Text without a comma splits into itself alone. */
  lemma {:induction false} SplitCommaWithoutComma(s: string)
    requires ',' !in s
    ensures SplitComma(s) == [s]
  {
    if s != [] {
      SplitCommaWithoutComma(s[1..]);
      assert [s[0]] + s[1..] == s;
    }
  }

  /** `trim` leaves trimmed text alone. */
  lemma TrimTrimmed(s: string)
    requires IsTrimmed(s)
    ensures Trim(s) == s
  {
    TrimPadded(s, []);
    assert s + [] == s;
  }

  /** `setStringLength` of a string at least `length` long keeps its first
      `length` characters, each NUL turned into a space. */
  lemma SetStringLengthCuts(s: string, length: nat)
    requires |s| >= length
    ensures SetStringLength(s, length) == seq(length, i requires 0 <= i < length => NulToSpace(s[i]))
  {
  }

  /** `setStringLength` of a shorter string keeps its characters (NUL turned
      into a space) and fills up with spaces. */
  lemma SetStringLengthPads(s: string, length: nat)
    requires |s| < length
    ensures SetStringLength(s, length)
         == seq(|s|, i requires 0 <= i < |s| => NulToSpace(s[i])) + seq(length - |s|, _ => ' ')
  {
  }

  /** A string without NUL that already has the length comes back from
      `setStringLength` unchanged. */
  lemma SetStringLengthFixed(s: string)
    requires '\0' !in s
    ensures SetStringLength(s, |s|) == s
  {
  }

  /** `setStringLength` is idempotent for a fixed length. */
  lemma SetStringLengthIdempotent(s: string, length: nat)
    ensures SetStringLength(SetStringLength(s, length), length) == SetStringLength(s, length)
  {
    SetStringLengthFixed(SetStringLength(s, length));
  }

  /** Padded text that `trim` leaves alone trims back to itself. */
  lemma TrimSetStringLength(s: string, length: nat)
    requires IsTrimmed(s) && '\0' !in s && |s| <= length
    ensures Trim(SetStringLength(s, length)) == s
  {
    var pad := seq(length - |s|, _ => ' ');
    assert SetStringLength(s, length) == s + pad;
    TrimPadded(s, pad);
  }

  /** `intValue(toString(v, e), e) == v` for every `int` v. */
  lemma IntValueToStringRoundTrip(value: Int32, emptyValue: Int32)
    ensures IntValueOr(ToString(value, emptyValue), emptyValue) == value
  {
    if value != emptyValue {
      TrimTrimmed(ToString(value, emptyValue));
    }
  }

  /** The fixed-width form of the round trip: writing `toString(v, e)` into a
      field of `length` characters and reading it back with `intValue(_, e)`
      gives `v` again, provided the text fits. */
  lemma IntValuePaddedRoundTrip(value: Int32, emptyValue: Int32, length: nat)
    requires |ToString(value, emptyValue)| <= length
    ensures IntValueOr(SetStringLength(ToString(value, emptyValue), length), emptyValue) == value
  {
    var text := ToString(value, emptyValue);
    TrimSetStringLength(text, length);
  }

  /** Blank text reads as the default value. */
  lemma IntValueOfBlank(s: string, defaultValue: Int32)
    requires AllTrimmable(s)
    ensures IntValueOr(s, defaultValue) == defaultValue
  {
    TrimBlank(s);
  }

  function Pow10(k: nat): (p: nat)
    ensures p >= 1
  {
    if k == 0 then 1 else 10 * Pow10(k - 1)
  }

  lemma {:induction false} DigitsValueBound(ds: string)
    requires AllDigits(ds)
    ensures DigitsValue(ds) < Pow10(|ds|)
  {
    if ds != [] {
      DigitsValueBound(ds[..|ds| - 1]);
    }
  }

  lemma {:induction false} DigitsValuePositive(ds: string)
    requires AllDigits(ds) && |ds| > 0 && ds[0] != '0'
    ensures DigitsValue(ds) >= 1
  {
    if |ds| > 1 {
      DigitsValuePositive(ds[..|ds| - 1]);
    }
  }

  /** Digits without a leading zero are the canonical form of their value. */
  lemma {:induction false} DigitsOfValue(ds: string)
    requires AllDigits(ds) && |ds| > 0 && (|ds| > 1 ==> ds[0] != '0')
    ensures Digits(DigitsValue(ds)) == ds
  {
    if |ds| > 1 {
      var front := ds[..|ds| - 1];
      DigitsValuePositive(front);
      DigitsOfValue(front);
      var n := DigitsValue(ds);
      assert n / 10 == DigitsValue(front) && n % 10 == ds[|ds| - 1] as int - '0' as int;
      assert ds == front + [ds[|ds| - 1]];
    }
  }

  /** A decimal written into a field of `width` characters (2 to 9) reads
      back as a number whose own decimal, written into the same field, gives
      the very same text: the first `width` characters of a decimal are again
      a decimal. The number read back is zero exactly when the original is. */
  lemma DecimalFieldStable(v: Int32, width: nat)
    requires 2 <= width <= 9
    ensures var t := SetStringLength(Decimal(v), width);
            var p := ParseInt(Trim(t));
            p.Some? && SetStringLength(Decimal(p.value), width) == t && (p.value == 0 <==> v == 0)
  {
    if |Decimal(v)| <= width {
      DecimalFits(v, width);
    } else {
      DecimalCut(v, width);
    }
  }

  lemma DecimalFits(v: Int32, width: nat)
    requires |Decimal(v)| <= width
    ensures Trim(SetStringLength(Decimal(v), width)) == Decimal(v)
    ensures ParseInt(Decimal(v)) == Some(v)
  {
    DecimalRoundTrip(v);
    TrimSetStringLength(Decimal(v), width);
  }

  lemma DecimalCut(v: Int32, width: nat)
    requires 2 <= width <= 9 && |Decimal(v)| > width
    ensures var t := SetStringLength(Decimal(v), width);
            Trim(t) == t && ParseInt(t).Some? && ParseInt(t).value != 0 && v != 0 &&
            SetStringLength(Decimal(ParseInt(t).value), width) == t
  {
    var d := Decimal(v);
    DecimalRoundTrip(v);
    SetStringLengthCutNoNul(d, width);
    var t := d[..width];
    DecimalTail(v);
    assert IsDigit(d[width - 1]);
    assert IsTrimmed(t);
    TrimTrimmed(t);
    if v >= 0 {
      CutDigitsStable(Digits(v), width);
    } else {
      CutNegativeStable(Digits(-(v as int)), width);
    }
  }

  /** After the optional sign, a decimal consists of digits. */
  lemma DecimalTail(v: int)
    ensures forall i :: 1 <= i < |Decimal(v)| ==> IsDigit(Decimal(v)[i])
  {
  }

  lemma SetStringLengthCutNoNul(s: string, length: nat)
    requires |s| >= length && '\0' !in s
    ensures SetStringLength(s, length) == s[..length]
  {
  }

  lemma CutDigitsStable(ds: string, width: nat)
    requires AllDigits(ds) && |ds| > width >= 2 && ds[0] != '0' && width <= 9
    ensures var t := ds[..width];
            ParseInt(t).Some? && ParseInt(t).value != 0 &&
            SetStringLength(Decimal(ParseInt(t).value), width) == t
  {
    var t := ds[..width];
    assert AllDigits(t) && t[0] != '0';
    DigitsValueBound(t);
    Pow10Values();
    Pow10Monotone(width, 9);
    DigitsOfValue(t);
    DigitsValuePositive(t);
    SetStringLengthFixed(t);
  }

  lemma CutNegativeStable(ds: string, width: nat)
    requires AllDigits(ds) && |ds| + 1 > width >= 2 && ds[0] != '0' && width <= 9
    ensures var t := ("-" + ds)[..width];
            ParseInt(t).Some? && ParseInt(t).value < 0 &&
            SetStringLength(Decimal(ParseInt(t).value), width) == t
  {
    var t := ("-" + ds)[..width];
    var cut := ds[..width - 1];
    assert t[1..] == cut;
    assert t == "-" + cut;
    assert AllDigits(cut) && cut[0] != '0';
    var v: int := DigitsValue(cut);
    DigitsValueBound(cut);
    Pow10Values();
    Pow10Monotone(width - 1, 8);
    DigitsValuePositive(cut);
    assert 1 <= v < 100000000;
    assert ParseInt(t) == Some(-v);
    DigitsOfValue(cut);
    assert Decimal(-v) == t;
    assert '\0' !in t;
    SetStringLengthFixed(t);
  }

  lemma Pow10Values()
    ensures Pow10(8) == 100000000 && Pow10(9) == 1000000000
  {
    assert Pow10(2) == 100;
    assert Pow10(4) == 10000;
    assert Pow10(6) == 1000000;
  }

  lemma {:induction false} Pow10Monotone(i: nat, j: nat)
    requires i <= j
    ensures Pow10(i) <= Pow10(j)
  {
    if i < j {
      Pow10Monotone(i, j - 1);
    }
  }
}
