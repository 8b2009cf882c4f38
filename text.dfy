// Character classes, `;`-splitting with `std::getline` semantics, and the
// number conversions of the C++ streams (`>> int`, `>> double`, `stoi`,
// `stod`, `<< int`, `<< double`) that the codecs of the inventory core use.

module Text {
  import opened Errors

  // ---------------------------------------------------------------------
  // Character classes (the "C" locale of <cctype>)

  predicate IsDigit(c: char) { '0' <= c <= '9' }
  predicate IsAlpha(c: char) { 'a' <= c <= 'z' || 'A' <= c <= 'Z' }
  predicate IsAlnum(c: char) { IsDigit(c) || IsAlpha(c) }
  predicate IsSpace(c: char) {
    c == ' ' || c == '\t' || c == '\n' || c == '\r' || c == '\U{B}' || c == '\U{C}'
  }

  function ToLowerChar(c: char): (r: char)
    ensures IsAlpha(c) <==> IsAlpha(r)
    ensures !('A' <= r <= 'Z')
  {
    if 'A' <= c <= 'Z' then (c as int + 32) as char else c
  }

  /** `std::transform(..., ::tolower)` over a whole string. */
  function ToLower(s: string): (r: string)
    ensures |r| == |s|
    ensures forall i :: 0 <= i < |s| ==> r[i] == ToLowerChar(s[i])
  {
    if |s| == 0 then [] else [ToLowerChar(s[0])] + ToLower(s[1..])
  }

  predicate AllDigits(s: string) { forall i :: 0 <= i < |s| ==> IsDigit(s[i]) }

  predicate IsPrefix(p: string, s: string) { |p| <= |s| && s[..|p|] == p }

  /** `s.find(t) != npos`: `t` starts at some position of `s`. */
  predicate Contains(s: string, t: string)
    decreases |s|
  {
    IsPrefix(t, s) || (|s| > 0 && Contains(s[1..], t))
  }

  /** `erase(remove(s.begin(), s.end(), ' '), s.end())`. */
  function RemoveSpaces(s: string): (r: string)
    ensures ' ' !in r
    ensures forall c :: c != ' ' ==> (c in r <==> c in s)
  {
    if |s| == 0 then []
    else if s[0] == ' ' then RemoveSpaces(s[1..])
    else [s[0]] + RemoveSpaces(s[1..])
  }

  // ---------------------------------------------------------------------
  // Splitting on a delimiter with `std::getline(stream, token, sep)`:
  // a token ends at `sep` or at the end of the input, the separator is
  // consumed, and nothing is produced once the input is exhausted, so a
  // trailing separator yields no trailing empty token.

  /** Index of the first `c` in `s`, or `|s|` when there is none. */
  function IndexOf(s: string, c: char): (r: nat)
    ensures r <= |s|
    ensures r < |s| ==> s[r] == c
    ensures forall i :: 0 <= i < r ==> s[i] != c
  {
    if |s| == 0 then 0 else if s[0] == c then 0 else 1 + IndexOf(s[1..], c)
  }

  function Split(s: string, sep: char): (r: seq<string>)
    ensures forall i :: 0 <= i < |r| ==> sep !in r[i]
    ensures |s| == 0 <==> |r| == 0
    decreases |s|
  {
    if |s| == 0 then []
    else
      var i := IndexOf(s, sep);
      if i == |s| then [s] else [s[..i]] + Split(s[i + 1..], sep)
  }

  function Join(fields: seq<string>, sep: char): string
  {
    if |fields| == 0 then ""
    else if |fields| == 1 then fields[0]
    else fields[0] + [sep] + Join(fields[1..], sep)
  }

  /** The first line of a stream, as read by `std::getline(is, line)`. */
  function FirstLine(s: string): (r: Option<string>)
    ensures r.Some? <==> |s| > 0
    ensures r.Some? ==> '\n' !in r.value && IsPrefix(r.value, s)
  {
    if |s| == 0 then None else Some(s[..IndexOf(s, '\n')])
  }

  predicate NoSep(fields: seq<string>, sep: char) {
    forall i :: 0 <= i < |fields| ==> sep !in fields[i]
  }

  lemma IndexOfJoined(a: string, sep: char, b: string)
    requires sep !in a
    ensures IndexOf(a + [sep] + b, sep) == |a|
  {
    var s := a + [sep] + b;
    if |a| > 0 {
      assert s[1..] == a[1..] + [sep] + b;
      IndexOfJoined(a[1..], sep, b);
    }
  }

  lemma IndexOfAbsent(a: string, sep: char)
    requires sep !in a
    ensures IndexOf(a, sep) == |a|
  {
    if |a| > 0 { IndexOfAbsent(a[1..], sep); }
  }

  /** Splitting a joined line gives the fields back, provided no field holds
      the separator and the last one is not empty. */
  lemma {:induction false} SplitJoin(fields: seq<string>, sep: char)
    requires |fields| > 0 && fields[|fields| - 1] != ""
    requires NoSep(fields, sep)
    ensures Split(Join(fields, sep), sep) == fields
    decreases |fields|
  {
    if |fields| == 1 {
      IndexOfAbsent(fields[0], sep);
    } else {
      var tail := fields[1..];
      assert tail[|tail| - 1] == fields[|fields| - 1];
      assert NoSep(tail, sep) by {
        forall i | 0 <= i < |tail| ensures sep !in tail[i] {
          assert tail[i] == fields[i + 1];
        }
      }
      calc {
        Split(Join(fields, sep), sep);
        Split(fields[0] + [sep] + Join(tail, sep), sep);
        { SplitCons(fields[0], sep, Join(tail, sep)); }
        [fields[0]] + Split(Join(tail, sep), sep);
        { SplitJoin(tail, sep); }
        [fields[0]] + tail;
        fields;
      }
    }
  }

  /** A field and a separator in front of a text split off as one field. */
  lemma SplitCons(a: string, sep: char, b: string)
    requires sep !in a
    ensures Split(a + [sep] + b, sep) == [a] + Split(b, sep)
  {
    var s := a + [sep] + b;
    IndexOfJoined(a, sep, b);
    assert s[..|a|] == a;
    assert s[|a| + 1..] == b;
  }

  lemma JoinHasNoChar(fields: seq<string>, sep: char, c: char)
    requires c != sep && NoSep(fields, c)
    ensures c !in Join(fields, sep)
  {
    if |fields| > 1 { JoinHasNoChar(fields[1..], sep, c); }
  }

  lemma JoinNonEmpty(fields: seq<string>, sep: char)
    requires |fields| > 1 || (|fields| == 1 && fields[0] != "")
    ensures |Join(fields, sep)| > 0
  {
  }

  /** `s.find(t)`: where `t` first occurs in `s`, or `|s|` when it does not. */
  function Find(s: string, t: string): (r: nat)
    ensures r <= |s|
    ensures forall i :: 0 <= i < r ==> !IsPrefix(t, s[i..])
    decreases |s|
  {
    if |s| == 0 || IsPrefix(t, s) then 0
    else
      var k := Find(s[1..], t);
      assert forall i :: 1 <= i <= k ==> s[i..] == s[1..][i - 1..];
      1 + k
  }

  /** The text before the first occurrence of `unit`, or all of `s` when
      there is none: how the codecs strip " mg", " ml" and " g". */
  function BeforeUnit(s: string, unit: string): (r: string)
    ensures IsPrefix(r, s)
  {
    s[..Find(s, unit)]
  }

  lemma {:induction false} FindAfter(a: string, t: string)
    requires |t| > 0 && t[0] !in a
    ensures Find(a + t, t) == |a|
    decreases |a|
  {
    var s := a + t;
    if |a| == 0 {
      assert s == t && IsPrefix(t, s);
    } else {
      assert s[0] == a[0] != t[0];
      assert s[1..] == a[1..] + t;
      FindAfter(a[1..], t);
    }
  }

  /** A value followed by its unit reads back as the value. */
  lemma {:induction false} BeforeUnitOf(a: string, unit: string)
    requires |unit| > 0 && unit[0] !in a
    ensures BeforeUnit(a + unit, unit) == a
  {
    FindAfter(a, unit);
    assert (a + unit)[..|a|] == a;
  }

  /** A line without a newline is its own first line. */
  lemma FirstLineOfLine(s: string)
    requires |s| > 0 && '\n' !in s
    ensures FirstLine(s) == Some(s)
  {
    IndexOfAbsent(s, '\n');
    assert s[..|s|] == s;
  }

  // ---------------------------------------------------------------------
  // Integers

  function DigitValue(c: char): nat requires IsDigit(c) { c as int - '0' as int }
  function DigitChar(d: nat): (c: char) requires d < 10 ensures IsDigit(c) && DigitValue(c) == d
  {
    ('0' as int + d) as char
  }

  /** The value of a run of decimal digits. */
  function DigitsValue(ds: string): nat
    requires AllDigits(ds)
  {
    if |ds| == 0 then 0 else DigitsValue(ds[..|ds| - 1]) * 10 + DigitValue(ds[|ds| - 1])
  }

  /** The longest run of digits at the head of `s`. */
  function LeadingDigits(s: string): (r: string)
    ensures IsPrefix(r, s) && AllDigits(r)
    ensures |r| < |s| ==> !IsDigit(s[|r|])
  {
    if |s| > 0 && IsDigit(s[0]) then [s[0]] + LeadingDigits(s[1..]) else []
  }

  function SkipSpaces(s: string): (r: string)
    ensures |r| <= |s| && r == s[|s| - |r|..]
    ensures |r| > 0 ==> !IsSpace(r[0])
  {
    if |s| > 0 && IsSpace(s[0]) then SkipSpaces(s[1..]) else s
  }

  /** Decimal rendering of a natural number, as `<<` writes it. */
  function NatToString(n: nat): (r: string)
    ensures |r| > 0 && AllDigits(r) && DigitsValue(r) == n
    ensures n >= 10 ==> r[0] != '0'
  {
    if n < 10 then [DigitChar(n)]
    else
      var r := NatToString(n / 10) + [DigitChar(n % 10)];
      assert r[..|r| - 1] == NatToString(n / 10);
      r
  }

  /** `os << n` for an `int`. */
  function IntToString(n: int): string
  {
    if n < 0 then "-" + NatToString(-n) else NatToString(n)
  }

  /** Digits at the head of `u`, with their value and the unread rest. */
  function ScanUnsigned(u: string): (r: Option<(nat, string)>)
    ensures r.Some? ==> |r.value.1| < |u| && r.value.1 == u[|u| - |r.value.1|..]
    ensures r.Some? ==> |r.value.1| == 0 || !IsDigit(r.value.1[0])
  {
    var ds := LeadingDigits(u);
    if |ds| == 0 then None else Some((DigitsValue(ds), u[|ds|..]))
  }

  /** An optional sign: whether it is '-', and the text after it. */
  function ScanSign(t: string): (bool, string)
  {
    if |t| > 0 && (t[0] == '-' || t[0] == '+') then (t[0] == '-', t[1..]) else (false, t)
  }

  /** Sign and digits after leading white space, with the unbounded value and
      the unread rest; None when no digit follows. Shared by `>> int`,
      `stoi` and `sscanf("%d")`. */
  function ScanInt(s: string): (r: Option<(int, string)>)
    ensures r.Some? ==> |r.value.1| < |s| && (|r.value.1| == 0 || !IsDigit(r.value.1[0]))
  {
    var sign := ScanSign(SkipSpaces(s));
    var r := ScanUnsigned(sign.1);
    if r.None? then None
    else Some((if sign.0 then -(r.value.0 as int) else r.value.0 as int, r.value.1))
  }

  /** `is >> n` for an `int`: fails when no digit can be read or the value
      does not fit in 32 bits. */
  function ReadInt(s: string): (r: Option<(Int32, string)>)
    ensures r.Some? ==> ScanInt(s) == Some((r.value.0 as int, r.value.1))
    ensures ScanInt(s).Some? && IsInt32(ScanInt(s).value.0) ==> r.Some?
  {
    match ScanInt(s)
    case None => None
    case Some((v, rest)) => if IsInt32(v) then Some((v as Int32, rest)) else None
  }

  /** `std::stoi`: invalid_argument without digits, out_of_range past 32 bits. */
  function Stoi(s: string): (r: Result<Int32>)
    ensures r.Ok? <==> ReadInt(s).Some?
    ensures r.Ok? ==> r.value == ReadInt(s).value.0
    ensures r.Fail? ==> (r.error == InvalidArgument <==> ScanInt(s).None?)
    ensures r.Fail? ==> r.error == InvalidArgument || r.error == OutOfRange
  {
    match ScanInt(s)
    case None => Fail(InvalidArgument)
    case Some((v, _)) => if IsInt32(v) then Ok(v as Int32) else Fail(OutOfRange)
  }

  lemma {:induction false} LeadingDigitsOfDigits(ds: string, tail: string)
    requires AllDigits(ds) && (|tail| == 0 || !IsDigit(tail[0]))
    ensures LeadingDigits(ds + tail) == ds
    decreases |ds|
  {
    if |ds| > 0 {
      calc {
        LeadingDigits(ds + tail);
        [ds[0]] + LeadingDigits((ds + tail)[1..]);
        { assert (ds + tail)[1..] == ds[1..] + tail; }
        [ds[0]] + LeadingDigits(ds[1..] + tail);
        { LeadingDigitsOfDigits(ds[1..], tail); }
        [ds[0]] + ds[1..];
        ds;
      }
    } else {
      assert ds + tail == tail;
    }
  }

  lemma {:induction false} ScanUnsignedOfDigits(ds: string, tail: string)
    requires |ds| > 0 && AllDigits(ds) && (|tail| == 0 || !IsDigit(tail[0]))
    ensures ScanUnsigned(ds + tail) == Some((DigitsValue(ds), tail))
  {
    LeadingDigitsOfDigits(ds, tail);
    assert (ds + tail)[|ds|..] == tail;
  }

  lemma {:induction false} SkipSpacesNone(s: string)
    requires |s| > 0 && !IsSpace(s[0])
    ensures SkipSpaces(s) == s
  {
  }

  lemma {:induction false} ScanIntFromParts(s: string, neg: bool, u: string, v: nat, tail: string)
    requires SkipSpaces(s) == s && ScanSign(s) == (neg, u)
    requires ScanUnsigned(u) == Some((v, tail))
    ensures ScanInt(s) == Some((if neg then -(v as int) else v as int, tail))
  {
  }

  lemma {:induction false} ScanIntOfDigits(ds: string, tail: string)
    requires |ds| > 0 && AllDigits(ds) && (|tail| == 0 || !IsDigit(tail[0]))
    ensures ScanInt(ds + tail) == Some((DigitsValue(ds) as int, tail))
  {
    var s := ds + tail;
    assert s[0] == ds[0];
    assert ScanSign(s) == (false, s);
    SkipSpacesNone(s);
    ScanUnsignedOfDigits(ds, tail);
    ScanIntFromParts(s, false, s, DigitsValue(ds), tail);
  }

  lemma {:induction false} ScanIntOfNegDigits(ds: string, tail: string)
    requires |ds| > 0 && AllDigits(ds) && (|tail| == 0 || !IsDigit(tail[0]))
    ensures ScanInt("-" + ds + tail) == Some((-(DigitsValue(ds) as int), tail))
  {
    var u := ds + tail;
    var s := "-" + u;
    assert s == "-" + ds + tail;
    assert s[1..] == u;
    assert ScanSign(s) == (true, u);
    SkipSpacesNone(s);
    ScanUnsignedOfDigits(ds, tail);
    ScanIntFromParts(s, true, u, DigitsValue(ds), tail);
  }

  lemma {:induction false} ScanIntOfString(n: int, tail: string)
    requires |tail| == 0 || !IsDigit(tail[0])
    ensures ScanInt(IntToString(n) + tail) == Some((n, tail))
  {
    if n < 0 {
      ScanIntOfNegDigits(NatToString(-n), tail);
    } else {
      ScanIntOfDigits(NatToString(n), tail);
    }
  }

  /** Writing an int and reading it back gives the same int, whatever
      non-digit text follows it. */
  lemma {:induction false} ReadIntOfString(n: Int32, tail: string)
    requires |tail| == 0 || !IsDigit(tail[0])
    ensures ReadInt(IntToString(n) + tail) == Some((n, tail))
    ensures Stoi(IntToString(n) + tail) == Ok(n)
  {
    ScanIntOfString(n, tail);
  }

  /** A number zero-padded to two digits, as `%m` and `%d` write it. */
  function Pad2(n: nat): (r: string)
    requires n < 100
    ensures |r| == 2 && AllDigits(r) && DigitsValue(r) == n
  {
    if n < 10 then
      var r := "0" + NatToString(n);
      assert r[..1] == "0";
      r
    else
      assert NatToString(n) == NatToString(n / 10) + [DigitChar(n % 10)];
      NatToString(n)
  }

  lemma {:induction false} ReadIntOfPad2(n: nat, tail: string)
    requires n < 100 && (|tail| == 0 || !IsDigit(tail[0]))
    ensures ScanInt(Pad2(n) + tail) == Some((n, tail))
  {
    ScanIntOfDigits(Pad2(n), tail);
  }

  /** `is >> c` for a `char`: skips white space, then takes one character. */
  function ReadChar(s: string): (r: Option<(char, string)>)
    ensures r.Some? ==> !IsSpace(r.value.0)
  {
    var t := SkipSpaces(s);
    if |t| == 0 then None else Some((t[0], t[1..]))
  }

  // ---------------------------------------------------------------------
  // Decimal reals. `>> double` and `std::stod` both read a sign, digits, an
  // optional fraction and an optional exponent, and differ where the
  // exponent has no digits or the value is out of range; `<< double`
  // writes the `%g` conversion with its default precision of six
  // significant digits.

  function Pow10(k: nat): (r: nat) ensures r > 0 { if k == 0 then 1 else 10 * Pow10(k - 1) }

  /** `v` times ten to the power `e`, one factor of ten at a time. */
  function Scale(v: real, e: int): real
    decreases if e >= 0 then e else -e
  {
    if e == 0 then v
    else if e > 0 then Scale(v * 10.0, e - 1)
    else Scale(v / 10.0, e + 1)
  }

  /** The value of the digits after a decimal point: `0.ds`. */
  function FractionValue(ds: string): (r: real)
    requires AllDigits(ds)
  {
    if |ds| == 0 then 0.0 else (DigitValue(ds[0]) as real + FractionValue(ds[1..])) / 10.0
  }

  predicate ExponentMark(u: string) { |u| > 0 && (u[0] == 'e' || u[0] == 'E') }

  /** An exponent at the head of `u`: 'e' or 'E', an optional sign and at
      least one digit. */
  function ScanExponent(u: string): (r: Option<(int, string)>)
    ensures r.Some? ==> ExponentMark(u) && |r.value.1| < |u|
  {
    if ExponentMark(u) then
      var sign := ScanSign(u[1..]);
      var ds := LeadingDigits(sign.1);
      if |ds| == 0 then None
      else
        var magnitude: int := DigitsValue(ds);
        Some((if sign.0 then -magnitude else magnitude, sign.1[|ds|..]))
    else None
  }

  /** Digits with an optional fraction at the head of `u`, with at least one
      digit before or after the point. */
  function ScanMantissa(u: string): (r: Option<(real, string)>)
    ensures r.Some? ==> |r.value.1| < |u|
  {
    var whole := LeadingDigits(u);
    var rest := u[|whole|..];
    if |rest| > 0 && rest[0] == '.' then
      var frac := LeadingDigits(rest[1..]);
      if |whole| + |frac| == 0 then None
      else Some((DigitsValue(whole) as real + FractionValue(frac), rest[1 + |frac|..]))
    else if |whole| == 0 then None
    else Some((DigitsValue(whole) as real, rest))
  }

  /** A mantissa, then an exponent if one follows; an 'e' without digits is
      left unread. */
  function ScanUnsignedReal(u: string): (r: Option<(real, string)>)
    ensures r.Some? ==> |r.value.1| < |u|
  {
    match ScanMantissa(u)
    case None => None
    case Some((m, tail)) =>
      match ScanExponent(tail)
      case None => Some((m, tail))
      case Some((e, after)) => Some((Scale(m, e), after))
  }

  /** The number `strtod` reads at the head of `s` after white space, and
      the text after it. */
  function ScanReal(s: string): (r: Option<(real, string)>)
    ensures r.Some? ==> |r.value.1| < |s|
  {
    var sign := ScanSign(SkipSpaces(s));
    var r := ScanUnsignedReal(sign.1);
    if r.None? then None else Some((if sign.0 then -r.value.0 else r.value.0, r.value.1))
  }

  function Pow2(k: nat): (r: nat) ensures r > 0 { if k == 0 then 1 else 2 * Pow2(k - 1) }

  /** Half way between the largest finite double, (2 - 2^-52) * 2^1023, and
      2^1024, that is 2^1024 - 2^970 (`DoubleOverflowIsMidpoint`): a
      decimal value at least this large in magnitude rounds to infinity. */
  const DoubleOverflow: real := 179769313486231580793728971405303415079934132710037826936173778980444968292764750946649017977587207096330286416692887910946555547851940402630657488671505820681908902000708383676273854845817711531764475730270069855571366959622842914819860834936475292719074168444365510704342711559699508093042880177904174497792.0

  predicate Overflows(v: real) { v >= DoubleOverflow || v <= -DoubleOverflow }

  /** The mantissa at the head of `s` is followed by an 'e' or 'E' that no
      exponent digit follows. */
  predicate DanglingExponent(s: string) {
    var m := ScanMantissa(ScanSign(SkipSpaces(s)).1);
    m.Some? && ExponentMark(m.value.1) && ScanExponent(m.value.1).None?
  }

  /** `is >> x` for a `double`, as libstdc++'s `num_get` does it. After the
      mantissa it takes an 'e' or 'E' and an optional sign even when no
      exponent digit follows, and hands what it took to `strtod`. The read
      fails when `strtod` stops short of that text and when the value lies
      beyond the range of a double. */
  function ExtractReal(s: string): (r: Option<(real, string)>)
    ensures r.Some? <==> ScanReal(s).Some? && !DanglingExponent(s) && !Overflows(ScanReal(s).value.0)
    ensures r.Some? ==> r == ScanReal(s)
  {
    if DanglingExponent(s) then None
    else
      match ScanReal(s)
      case None => None
      case Some((v, rest)) => if Overflows(v) then None else Some((v, rest))
  }

  /** `std::stod`: `strtod`, with `invalid_argument` when it reads nothing
      and `out_of_range` when the value lies beyond the range of a double. */
  function Stod(s: string): (r: Result<real>)
    ensures r.Ok? <==> ScanReal(s).Some? && !Overflows(ScanReal(s).value.0)
    ensures r.Ok? ==> r.value == ScanReal(s).value.0
    ensures r.Fail? ==> (r.error == InvalidArgument <==> ScanReal(s).None?)
    ensures r.Fail? ==> r.error == InvalidArgument || r.error == OutOfRange
  {
    match ScanReal(s)
    case None => Fail(InvalidArgument)
    case Some((v, _)) => if Overflows(v) then Fail(OutOfRange) else Ok(v)
  }

  predicate IsIntegral(x: real) { x == x.Floor as real }

  /** `os << x` for a `double`: the `%g` conversion with six significant
      digits. */
  function RealToString(x: real): (r: string)
    ensures |r| > 0 && (r[0] == '-' <==> x < 0.0)
    decreases if x < 0.0 then 1 else 0
  {
    if x < 0.0 then "-" + RealToString(-x) else NonNegRealToString(x)
  }

  /** `%g` chooses fixed notation when the exponent of the rounded value is
      at least -4 and below the precision, and scientific notation
      otherwise. */
  function NonNegRealToString(x: real): (r: string)
    requires x >= 0.0
    ensures |r| > 0 && IsDigit(r[0])
  {
    if x == 0.0 then "0"
    else
      var (d, e) := Significant(x);
      if -4 <= e < 6 then Fixed(NatToString(d), e) else Scientific(NatToString(d), e)
  }

  /** The decimal exponent of a positive `x`: `10^e <= x < 10^(e + 1)`. From
      one up it is the digit count of the whole part, less one. */
  function Exponent(x: real): int
    requires x > 0.0
  {
    if x >= 1.0 then |NatToString(x.Floor)| - 1 else ExponentBelowOne(x)
  }

  /** Below one, minus the number of factors of ten that bring `x` to at
      least one. */
  function ExponentBelowOne(x: real): int
    requires 0.0 < x < 1.0
    decreases (1.0 / x).Floor
  {
    if x >= 0.1 then -1
    else
      assert (1.0 / (x * 10.0)).Floor < (1.0 / x).Floor by { InverseShrinks(x); }
      ExponentBelowOne(x * 10.0) - 1
  }

  lemma InverseShrinks(x: real)
    requires 0.0 < x < 0.1
    ensures 0 <= (1.0 / (x * 10.0)).Floor < (1.0 / x).Floor
  {
    var y := 1.0 / x;
    assert y * x == 1.0;
    assert y > 10.0;
    assert 1.0 / (x * 10.0) == y / 10.0;
  }

  /** The six significant digits of a positive `x`, rounded half to even,
      and the exponent of the first of them: `x` is close to
      `d * 10^(e - 5)`. A carry into a seventh digit moves the exponent. */
  function Significant(x: real): (nat, int)
    requires x > 0.0
  {
    var e := Exponent(x);
    var d := RoundHalfEven(Scale(x, 5 - e));
    if d < 0 then (0, e)
    else if d >= 1000000 then (d / 10, e + 1)
    else (d, e)
  }

  function RoundHalfEven(v: real): int
  {
    var f := v.Floor;
    var frac := v - f as real;
    if frac > 0.5 || (frac == 0.5 && f % 2 != 0) then f + 1 else f
  }

  /** `%f` with `5 - e` decimals of the six digits `ds`. */
  function Fixed(ds: string, e: int): (r: string)
    ensures |ds| > 0 && IsDigit(ds[0]) ==> |r| > 0 && IsDigit(r[0])
  {
    if e >= 0 then
      var k := if e + 1 <= |ds| then e + 1 else |ds|;
      Point(ds[..k], ds[k..])
    else Point("0", Zeros(-e - 1) + ds)
  }

  /** `%e` with five decimals, and an exponent of at least two digits. */
  function Scientific(ds: string, e: int): (r: string)
    ensures |ds| > 0 && IsDigit(ds[0]) ==> |r| > 0 && IsDigit(r[0])
  {
    var mantissa := if |ds| > 0 then Point(ds[..1], ds[1..]) else "0";
    var magnitude := if e < 0 then -e else e;
    mantissa + (if e < 0 then "e-" else "e+") + (if magnitude < 10 then "0" else "") + NatToString(magnitude)
  }

  /** A whole part and a fraction, with the fraction's trailing zeros
      removed, and the point too when no digit follows it. */
  function Point(whole: string, frac: string): (r: string)
    ensures |r| >= |whole| && r[..|whole|] == whole
  {
    var f := TrimZeros(frac);
    if |f| == 0 then whole else whole + "." + f
  }

  function Zeros(k: nat): (r: string)
    ensures |r| == k && forall i :: 0 <= i < k ==> r[i] == '0'
  {
    seq(k, _ => '0')
  }

  function TrimZeros(s: string): string
  {
    if |s| > 0 && s[|s| - 1] == '0' then TrimZeros(s[..|s| - 1]) else s
  }

  lemma {:induction false} TrimZerosOfZeros(k: nat)
    ensures TrimZeros(Zeros(k)) == ""
  {
    if k > 0 {
      assert Zeros(k)[..k - 1] == Zeros(k - 1);
      TrimZerosOfZeros(k - 1);
    }
  }

  /** A positive number has as many digits as its exponent says:
      `10^(L - 1) <= n < 10^L` for `L` digits. */
  lemma {:induction false} NatToStringBounds(n: nat)
    requires n >= 1
    ensures Pow10(|NatToString(n)| - 1) <= n < Pow10(|NatToString(n)|)
    decreases n
  {
    if n >= 10 {
      NatToStringBounds(n / 10);
      assert |NatToString(n)| == |NatToString(n / 10)| + 1;
    }
  }

  /** Appending zeros multiplies by a power of ten. */
  lemma {:induction false} NatToStringShift(n: nat, k: nat)
    requires n >= 1
    ensures NatToString(n * Pow10(k)) == NatToString(n) + Zeros(k)
  {
    if k > 0 {
      NatToStringShift(n, k - 1);
      PowTimes(n, k - 1);
      ShiftStep(NatToString(n), n * Pow10(k - 1), k);
    }
  }

  lemma ShiftStep(ds: string, m: nat, k: nat)
    requires m >= 1 && k >= 1 && NatToString(m) == ds + Zeros(k - 1)
    ensures NatToString(m * 10) == ds + Zeros(k)
  {
    NatToStringTimesTen(m);
    assert Zeros(k - 1) + "0" == Zeros(k);
  }

  lemma PowTimes(n: nat, k: nat)
    requires n >= 1
    ensures n * Pow10(k + 1) == (n * Pow10(k)) * 10 && n * Pow10(k) >= 1
  {
    assert Pow10(k + 1) == 10 * Pow10(k);
  }

  lemma NatToStringTimesTen(m: nat)
    requires m >= 1
    ensures NatToString(m * 10) == NatToString(m) + "0"
  {
    var t := m * 10;
    assert t >= 10 && t / 10 == m && t % 10 == 0;
    assert DigitChar(0) == '0';
  }

  lemma {:induction false} ScaleWhole(n: nat, k: nat)
    ensures Scale(n as real, k) == (n * Pow10(k)) as real
    decreases k
  {
    if k > 0 {
      ScaleWhole(n * 10, k - 1);
      assert (n * 10) as real == n as real * 10.0;
      assert (n * 10) * Pow10(k - 1) == n * Pow10(k);
    }
  }

  lemma RoundIntegral(m: int)
    ensures RoundHalfEven(m as real) == m
  {
    assert (m as real).Floor == m;
  }

  /** `%g` writes a whole number below a million as its plain digits: six
      significant digits hold it, and the zero fraction is removed. */
  lemma {:induction false} NonNegRealToStringIntegral(n: nat)
    requires n < 1000000
    ensures NonNegRealToString(n as real) == NatToString(n)
  {
    if n > 0 {
      var len := |NatToString(n)|;
      SignificantOfWhole(n);
      var m := n * Pow10(6 - len);
      FixedOfPadded(n, 6 - len);
      FixedNotation(n as real, m, len - 1);
    }
  }

  lemma FixedNotation(x: real, d: nat, e: int)
    requires x > 0.0 && Significant(x) == (d, e) && -4 <= e < 6
    ensures NonNegRealToString(x) == Fixed(NatToString(d), e)
  {
  }

  /** The exponent of a whole number is its digit count less one. */
  lemma {:induction false} ExponentOfWhole(n: nat)
    requires n > 0
    ensures Exponent(n as real) == |NatToString(n)| - 1
  {
    assert (n as real).Floor == n;
  }

  /** A whole number below a million is its digits padded with zeros to six. */
  lemma {:induction false} SignificantOfWhole(n: nat)
    requires 0 < n < 1000000
    ensures |NatToString(n)| <= 6
    ensures Significant(n as real) == (n * Pow10(6 - |NatToString(n)|), |NatToString(n)| - 1)
  {
    var len := |NatToString(n)|;
    NatToStringBounds(n);
    if len > 6 {
      PowMonotone(6, len - 1);
      assert false;
    }
    ExponentOfWhole(n);
    var m := n * Pow10(6 - len);
    ScaleWhole(n, 6 - len);
    assert 5 - (len - 1) == 6 - len;
    RoundIntegral(m);
    PaddedBelowMillion(n, 6 - len);
  }

  lemma {:induction false} PaddedBelowMillion(n: nat, k: nat)
    requires n > 0 && |NatToString(n)| + k == 6
    ensures 1 <= n * Pow10(k) < 1000000
  {
    var m := n * Pow10(k);
    NatToStringShift(n, k);
    assert m >= 1 by { PowTimes(n, k); }
    NatToStringBounds(m);
    assert |NatToString(m)| == 6;
    assert Pow10(6) == 1000000;
  }

  /** Fixed notation of the padded digits drops the padding again. */
  lemma {:induction false} FixedOfPadded(n: nat, k: nat)
    requires n > 0 && |NatToString(n)| + k == 6
    ensures Fixed(NatToString(n * Pow10(k)), |NatToString(n)| - 1) == NatToString(n)
  {
    var ds := NatToString(n);
    var len := |ds|;
    NatToStringShift(n, k);
    var digits := NatToString(n * Pow10(k));
    assert digits == ds + Zeros(k);
    assert digits[..len] == ds && digits[len..] == Zeros(k);
    TrimZerosOfZeros(k);
  }

  lemma {:induction false} PowMonotone(i: nat, j: nat)
    requires i <= j
    ensures Pow10(i) <= Pow10(j)
    decreases j
  {
    if i < j {
      PowMonotone(i, j - 1);
    }
  }

  lemma {:induction false} ScanRealFromParts(s: string, neg: bool, u: string, v: real)
    requires SkipSpaces(s) == s && ScanSign(s) == (neg, u)
    requires ScanUnsignedReal(u) == Some((v, ""))
    ensures ScanReal(s) == Some((if neg then -v else v, ""))
  {
  }

  lemma {:induction false} ScanUnsignedRealOfDigits(ds: string)
    requires |ds| > 0 && AllDigits(ds)
    ensures ScanMantissa(ds) == Some((DigitsValue(ds) as real, ""))
    ensures ScanUnsignedReal(ds) == Some((DigitsValue(ds) as real, ""))
  {
    LeadingDigitsOfDigits(ds, "");
    assert ds + "" == ds;
    assert ds[|ds|..] == "";
  }

  /** A whole number below a million in magnitude, written by `<<`, reads
      back by `>>` and `stod`. */
  lemma {:induction false} ScanRealOfIntegral(n: int)
    requires -1000000 < n < 1000000
    ensures ScanReal(RealToString(n as real)) == Some((n as real, ""))
    ensures ExtractReal(RealToString(n as real)) == Some((n as real, ""))
    ensures Stod(RealToString(n as real)) == Ok(n as real)
  {
    RealToStringWhole(n);
    ScanRealOfIntString(n);
  }

  /** Below a million in magnitude, `<<` writes a whole double as it writes
      the `int`. */
  lemma {:induction false} RealToStringWhole(n: int)
    requires -1000000 < n < 1000000
    ensures RealToString(n as real) == IntToString(n)
  {
    if n < 0 {
      RealToStringNegative(-n);
      assert n as real == -((-n) as real);
    } else {
      RealToStringNatural(n);
    }
  }

  lemma {:induction false} RealToStringNatural(n: nat)
    requires n < 1000000
    ensures RealToString(n as real) == NatToString(n)
  {
    NonNegRealToStringIntegral(n);
  }

  lemma {:induction false} RealToStringNegative(m: nat)
    requires 0 < m < 1000000
    ensures RealToString(-(m as real)) == "-" + NatToString(m)
  {
    RealToStringNatural(m);
  }

  /** `>> double` reads the text of an `int` as that value. */
  lemma {:induction false} ScanRealOfIntString(n: int)
    ensures ScanReal(IntToString(n)) == Some((n as real, ""))
    ensures !DanglingExponent(IntToString(n))
  {
    if n < 0 {
      var ds := NatToString(-n);
      var s := "-" + ds;
      assert IntToString(n) == s;
      assert s[1..] == ds;
      assert ScanSign(s) == (true, ds);
      SkipSpacesNone(s);
      ScanUnsignedRealOfDigits(ds);
      ScanRealFromParts(s, true, ds, (-n) as real);
    } else {
      var ds := NatToString(n);
      assert ScanSign(ds) == (false, ds);
      SkipSpacesNone(ds);
      ScanUnsignedRealOfDigits(ds);
      ScanRealFromParts(ds, false, ds, n as real);
    }
  }

  /** From a million up, six significant digits lose the rest: 1234567 is
      written as "1.23457e+06", and reads back as 1234570. */
  lemma LargeWholeLosesDigits()
    ensures RealToString(1234567.0) == "1.23457e+06"
    ensures ScanReal(RealToString(1234567.0)) == Some((1234570.0, ""))
  {
    WriteLarge();
    ReadLarge();
  }

  lemma WriteLarge()
    ensures RealToString(1234567.0) == "1.23457e+06"
  {
    SignificantLarge();
    DigitsLarge();
    ScientificLarge();
  }

  lemma SignificantLarge()
    ensures Significant(1234567.0) == (123457, 6)
  {
    ExponentLarge();
    RoundLarge();
  }

  lemma DigitsLarge()
    ensures NatToString(123457) == "123457" && NatToString(1234567) == "1234567"
  {
    assert NatToString(1) == "1";
    assert NatToString(12) == "12";
    assert NatToString(123) == "123";
    assert NatToString(1234) == "1234";
    assert NatToString(12345) == "12345";
    assert NatToString(123456) == "123456";
  }

  lemma ExponentLarge()
    ensures Exponent(1234567.0) == 6
  {
    DigitsLarge();
    assert (1234567.0).Floor == 1234567;
  }

  lemma RoundLarge()
    ensures RoundHalfEven(Scale(1234567.0, 5 - 6)) == 123457
  {
    assert Pow10(1) == 10;
    assert Scale(1234567.0, -1) == 123456.7;
    assert (123456.7).Floor == 123456;
  }

  lemma ScientificLarge()
    ensures Scientific("123457", 6) == "1.23457e+06"
  {
    assert "123457"[..1] == "1" && "123457"[1..] == "23457";
    assert TrimZeros("23457") == "23457";
    assert NatToString(6) == "6";
  }

  lemma ReadLarge()
    ensures ScanReal("1.23457e+06") == Some((1234570.0, ""))
  {
    var s := "1.23457e+06";
    SkipSpacesNone(s);
    assert ScanSign(s) == (false, s);
    MantissaLarge();
    ExponentTextLarge();
    assert Pow10(6) == 1000000;
    assert Scale(1.23457, 6) == 1234570.0;
  }

  lemma MantissaLarge()
    ensures LeadingDigits("1.23457e+06") == "1"
    ensures LeadingDigits("23457e+06") == "23457"
    ensures DigitsValue("1") == 1 && DigitsValue("23457") == 23457
    ensures "1.23457e+06"[1..][1..] == "23457e+06"
    ensures "1.23457e+06"[1..][1 + 5..] == "e+06"
  {
    LeadingLarge();
    ValueLarge();
  }

  lemma LeadingLarge()
    ensures LeadingDigits("1.23457e+06") == "1"
    ensures LeadingDigits("23457e+06") == "23457"
  {
    assert "1.23457e+06"[1..] == ".23457e+06";
    assert LeadingDigits(".23457e+06") == "";
    assert "7e+06"[1..] == "e+06";
    assert LeadingDigits("e+06") == "";
    assert "57e+06"[1..] == "7e+06";
    assert LeadingDigits("7e+06") == "7";
    assert "457e+06"[1..] == "57e+06";
    assert LeadingDigits("57e+06") == "57";
    assert "3457e+06"[1..] == "457e+06";
    assert LeadingDigits("457e+06") == "457";
    assert "23457e+06"[1..] == "3457e+06";
    assert LeadingDigits("3457e+06") == "3457";
  }

  lemma ValueLarge()
    ensures DigitsValue("1") == 1 && DigitsValue("23457") == 23457
  {
    assert "23"[..1] == "2" && "234"[..2] == "23";
    assert "2345"[..3] == "234" && "23457"[..4] == "2345";
    assert DigitsValue("2") == 2;
    assert DigitsValue("23") == 23;
    assert DigitsValue("234") == 234;
    assert DigitsValue("2345") == 2345;
  }

  lemma ExponentTextLarge()
    ensures ScanExponent("e+06") == Some((6, ""))
  {
    assert "e+06"[1..] == "+06";
    assert ScanSign("+06") == (false, "06");
    assert LeadingDigits("06") == "06";
    assert "06"[..1] == "0";
    assert DigitsValue("06") == 6;
  }

  /** "1e3" is a thousand to both readers. On "1e", "1e+" and "2.5e-"
      `strtod` stops before the 'e', so `stod` gives the mantissa, while
      `>>` has already taken the 'e' (and the sign) and fails. */
  lemma ScanRealExponent()
    ensures ExtractReal("1e3") == Some((1000.0, "")) && Stod("1e3") == Ok(1000.0)
    ensures ExtractReal("1e").None? && Stod("1e") == Ok(1.0)
    ensures ExtractReal("1e+").None? && Stod("1e+") == Ok(1.0)
    ensures ExtractReal("2.5e-").None? && Stod("2.5e-") == Ok(2.5)
  {
    ReadersWithExponent();
    ReadersBareE();
    ReadersBareEPlus();
    ReadersFractionBareExponent();
  }

  lemma ReadersBareE()
    ensures ExtractReal("1e").None? && Stod("1e") == Ok(1.0)
  {
    ReadersBareExponent("1e", "e");
  }

  lemma ReadersBareEPlus()
    ensures ExtractReal("1e+").None? && Stod("1e+") == Ok(1.0)
  {
    ReadersBareExponent("1e+", "e+");
  }

  lemma ReadersWithExponent()
    ensures ExtractReal("1e3") == Some((1000.0, "")) && Stod("1e3") == Ok(1000.0)
  {
    ScanRealWithExponent();
  }

  lemma ReadersBareExponent(s: string, mark: string)
    requires s == "1" + mark && (mark == "e" || mark == "e+")
    ensures ExtractReal(s).None? && Stod(s) == Ok(1.0)
  {
    ScanRealBareExponent(s, mark);
  }

  lemma ReadersFractionBareExponent()
    ensures ExtractReal("2.5e-").None? && Stod("2.5e-") == Ok(2.5)
  {
    ScanRealFractionBareExponent();
  }

  lemma ScanRealWithExponent()
    ensures ScanReal("1e3") == Some((1000.0, "")) && !DanglingExponent("1e3")
  {
    SkipSpacesNone("1e3");
    assert ScanSign("1e3") == (false, "1e3");
    assert LeadingDigits("1e3") == "1";
    assert "1e3"[1..] == "e3";
    assert ScanMantissa("1e3") == Some((1.0, "e3"));
    assert ScanExponent("e3") == Some((3, "")) by {
      assert "e3"[1..] == "3";
      assert LeadingDigits("3") == "3";
      assert DigitsValue("3") == 3;
    }
    assert Pow10(3) == 1000;
    assert Scale(1.0, 3) == 1000.0;
    assert ScanUnsignedReal("1e3") == Some((1000.0, ""));
  }

  /** "1" and then an 'e' with at most a sign after it. */
  lemma ScanRealBareExponent(s: string, mark: string)
    requires s == "1" + mark && (mark == "e" || mark == "e+")
    ensures ScanReal(s) == Some((1.0, mark)) && DanglingExponent(s)
  {
    SkipSpacesNone(s);
    assert ScanSign(s) == (false, s);
    assert LeadingDigits(s) == "1";
    assert s[1..] == mark;
    assert DigitsValue("1") == 1;
    assert ScanMantissa(s) == Some((1.0, mark));
    assert ScanExponent(mark) == None by {
      assert LeadingDigits(ScanSign(mark[1..]).1) == "";
    }
  }

  lemma ScanRealFractionBareExponent()
    ensures ScanReal("2.5e-") == Some((2.5, "e-")) && DanglingExponent("2.5e-")
  {
    var s := "2.5e-";
    SkipSpacesNone(s);
    assert ScanSign(s) == (false, s);
    assert LeadingDigits(s) == "2";
    assert s[1..] == ".5e-" && ".5e-"[1..] == "5e-";
    assert LeadingDigits("5e-") == "5";
    assert FractionValue("5") == 0.5;
    assert ".5e-"[2..] == "e-";
    assert ScanMantissa(s) == Some((2.5, "e-"));
    assert ScanExponent("e-") == None by {
      assert "e-"[1..] == "-";
      assert "-"[1..] == "";
      assert ScanSign("-") == (true, "");
    }
  }

  /** "1e" and the digits of `k` read as ten to the power `k`. */
  lemma {:induction false} ScanRealPower(s: string, k: nat)
    requires s == "1e" + NatToString(k)
    ensures ScanReal(s) == Some((Pow10(k) as real, "")) && !DanglingExponent(s)
  {
    var ds := NatToString(k);
    SkipSpacesNone(s);
    assert ScanSign(s) == (false, s);
    assert s[1..] == "e" + ds;
    LeadingDigitsOfDigits("1", "e" + ds);
    assert s == "1" + ("e" + ds);
    assert DigitsValue("1") == 1;
    assert ScanMantissa(s) == Some((1.0, "e" + ds));
    assert ScanExponent("e" + ds) == Some((k, "")) by {
      assert ("e" + ds)[1..] == ds;
      assert ScanSign(ds) == (false, ds);
      LeadingDigitsOfDigits(ds, "");
      assert ds + "" == ds;
      assert ds[|ds|..] == "";
    }
    ScaleWhole(1, k);
  }

  lemma {:induction false} Pow2Add(a: nat, b: nat)
    ensures Pow2(a + b) == Pow2(a) * Pow2(b)
    decreases b
  {
    if b > 0 {
      Pow2Add(a, b - 1);
      assert Pow2(a + b) == 2 * Pow2(a + b - 1);
    }
  }

  /** Since 2^3 < 10, `Pow2(3 * k) <= Pow10(k)`. */
  lemma {:induction false} Pow2BelowPow10(k: nat)
    ensures Pow2(3 * k) <= Pow10(k)
  {
    if k > 0 {
      Pow2BelowPow10(k - 1);
      Pow2Add(3 * (k - 1), 3);
      assert Pow2(3) == 8;
    }
  }

  lemma {:induction false} Pow10Grows(a: nat, b: nat)
    requires a <= b
    ensures Pow10(a) <= Pow10(b)
    decreases b
  {
    if a < b {
      Pow10Grows(a, b - 1);
    }
  }

  /** Ten to the power 342 or more is beyond the range of a double. */
  lemma {:induction false} PowerOverflows(k: nat)
    requires k >= 342
    ensures Overflows(Pow10(k) as real)
  {
    DoubleOverflowIsMidpoint();
    Pow2Add(1024, 2);
    Pow2BelowPow10(342);
    Pow10Grows(342, k);
    assert 3 * 342 == 1026;
  }

  lemma Squared(k: nat, v: nat) returns (w: nat)
    requires Pow2(k) == v
    ensures w == v * v && Pow2(k + k) == w
  {
    Pow2Add(k, k);
    w := v * v;
  }

  lemma Times(a: nat, b: nat, va: nat, vb: nat) returns (w: nat)
    requires Pow2(a) == va && Pow2(b) == vb
    ensures w == va * vb && Pow2(a + b) == w
  {
    Pow2Add(a, b);
    w := va * vb;
  }

  /** The overflow bound is 2^1024 - 2^970, computed by squaring. */
  lemma DoubleOverflowIsMidpoint()
    ensures DoubleOverflow == (Pow2(1024) - Pow2(970)) as real
  {
    assert Pow2(1) == 2;
    var p2 := Squared(1, 2);
    var p4 := Squared(2, p2);
    var p8 := Squared(4, p4);
    var p16 := Squared(8, p8);
    var p32 := Squared(16, p16);
    var p64 := Squared(32, p32);
    var p128 := Squared(64, p64);
    var p256 := Squared(128, p128);
    var p512 := Squared(256, p256);
    var p1024 := Squared(512, p512);
    var p10 := Times(2, 8, p2, p8);
    var p74 := Times(10, 64, p10, p64);
    var p202 := Times(74, 128, p74, p128);
    var p458 := Times(202, 256, p202, p256);
    var p970 := Times(458, 512, p458, p512);
  }

  /** Beyond the range of a double, `>>` fails and `stod` throws
      `out_of_range`; so it is for "1e400". */
  lemma {:induction false} OverflowRead(k: nat)
    requires k >= 342
    ensures ExtractReal("1e" + NatToString(k)).None?
    ensures Stod("1e" + NatToString(k)) == Fail(OutOfRange)
  {
    ScanRealPower("1e" + NatToString(k), k);
    PowerOverflows(k);
  }


}
