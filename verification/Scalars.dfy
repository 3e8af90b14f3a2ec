/** How scalar field values are written into a path and read back. */
module Scalars {
  datatype Result<T> = Ok(value: T) | Err

  /** The kinds a path parameter can have.  An enum lists its names with their numbers. */
  datatype Kind = StringKind | BytesKind | BoolKind | Int32Kind | Int64Kind | Uint32Kind | Uint64Kind | EnumKind(names: seq<(string, int)>)

  /** Strings and byte strings are sequences of bytes. */
  datatype Scalar = Str(s: string) | Bytes(b: string) | Bool(x: bool) | Num(n: int) | Enum(number: int)

  // ---------------------------------------------------------------- decimal notation

  function Digit(d: nat): char
    requires d < 10
  {
    ['0', '1', '2', '3', '4', '5', '6', '7', '8', '9'][d]
  }

  predicate IsDigit(c: char) {
    '0' <= c <= '9'
  }

  function DigitValue(c: char): (r: nat)
    requires IsDigit(c)
    ensures r < 10
  {
    c as int - '0' as int
  }

  function FormatNat(n: nat): (r: string)
    ensures r != "" && forall c | c in r :: IsDigit(c)
  {
    if n < 10 then [Digit(n)] else FormatNat(n / 10) + [Digit(n % 10)]
  }

  function FormatInt(n: int): string {
    if n < 0 then "-" + FormatNat(-n) else FormatNat(n)
  }

  predicate AllDigits(s: string) {
    s != "" && forall i | 0 <= i < |s| :: IsDigit(s[i])
  }

  function DigitsValue(s: string): nat
    requires forall i | 0 <= i < |s| :: IsDigit(s[i])
  {
    if s == "" then 0 else DigitsValue(s[..|s| - 1]) * 10 + DigitValue(s[|s| - 1])
  }

  /** strconv.ParseUint in base ten. */
  function ParseUint(s: string, max: int): Result<int> {
    if !AllDigits(s) then Err
    else if DigitsValue(s) > max then Err
    else Ok(DigitsValue(s))
  }

  /** strconv.ParseInt in base ten: an optional sign, then digits. */
  function ParseInt(s: string, min: int, max: int): Result<int> {
    if s == "" then Err else
      var unsigned := if s[0] == '-' || s[0] == '+' then s[1..] else s;
      if !AllDigits(unsigned) then Err else
        var magnitude: int := DigitsValue(unsigned);
        var n := if s[0] == '-' then -magnitude else magnitude;
        if min <= n <= max then Ok(n) else Err
  }

  lemma {:induction false} NatRoundTrip(n: nat)
    ensures AllDigits(FormatNat(n)) && DigitsValue(FormatNat(n)) == n
  {
    if n < 10 {
      assert FormatNat(n)[..0] == "";
    } else {
      NatRoundTrip(n / 10);
      assert FormatNat(n)[..|FormatNat(n)| - 1] == FormatNat(n / 10);
    }
  }

  function PowerOfTen(n: nat): nat {
    if n == 0 then 1 else 10 * PowerOfTen(n - 1)
  }

  /** The value of digits by their places, the first the highest. */
  function Positional(s: string): int {
    if s == "" then 0 else (s[0] as int - '0' as int) * PowerOfTen(|s| - 1) + Positional(s[1..])
  }

  lemma {:induction false} PositionalSnoc(s: string, c: char)
    ensures Positional(s + [c]) == Positional(s) * 10 + (c as int - '0' as int)
  {
    if s == "" {
      assert s + [c] == [c];
    } else {
      PositionalSnoc(s[1..], c);
      assert (s + [c])[1..] == s[1..] + [c];
      var d, p := s[0] as int - '0' as int, PowerOfTen(|s| - 1);
      assert d * (10 * p) == d * p * 10;
    }
  }

  lemma {:induction false} DigitsValueIsPositional(s: string)
    requires forall i | 0 <= i < |s| :: IsDigit(s[i])
    ensures DigitsValue(s) == Positional(s)
  {
    if s != "" {
      DigitsValueIsPositional(s[..|s| - 1]);
      PositionalSnoc(s[..|s| - 1], s[|s| - 1]);
      assert s[..|s| - 1] + [s[|s| - 1]] == s;
    }
  }

  lemma {:induction false} NoLeadingZero(n: nat)
    requires n > 0
    ensures FormatNat(n)[0] != '0'
  {
    if n >= 10 {
      NoLeadingZero(n / 10);
    }
  }

  /** A number is printed in decimal: digits whose places add up to it, without a leading zero, after a minus sign if it
      is negative. */
  lemma PrintsDecimal(n: int)
    ensures var digits := if n < 0 then FormatInt(n)[1..] else FormatInt(n);
            && (n < 0 ==> FormatInt(n)[0] == '-')
            && AllDigits(digits) && Positional(digits) == (if n < 0 then -n else n) && (n != 0 ==> digits[0] != '0')
            && (n == 0 ==> digits == "0")
  {
    var m := if n < 0 then -n else n;
    NatRoundTrip(m);
    DigitsValueIsPositional(FormatNat(m));
    if m > 0 {
      NoLeadingZero(m);
    }
  }

  /** A text is read as a natural number exactly if it is digits whose value is not over the limit. */
  lemma ReadsNatural(s: string, max: int, n: int)
    ensures ParseUint(s, max) == Ok(n) <==> AllDigits(s) && n == Positional(s) && n <= max
  {
    if AllDigits(s) {
      DigitsValueIsPositional(s);
    }
  }

  lemma ReadsUnsigned(s: string, min: int, max: int, n: int)
    requires s != "" && s[0] != '-' && s[0] != '+'
    ensures ParseInt(s, min, max) == Ok(n) <==> min <= n <= max && AllDigits(s) && n == Positional(s)
  {
    if AllDigits(s) {
      DigitsValueIsPositional(s);
    }
  }

  lemma ReadsSigned(s: string, min: int, max: int, n: int)
    requires s != "" && (s[0] == '-' || s[0] == '+')
    ensures ParseInt(s, min, max) == Ok(n) <==>
            min <= n <= max && AllDigits(s[1..]) && n == if s[0] == '-' then -Positional(s[1..]) else Positional(s[1..])
  {
    if AllDigits(s[1..]) {
      DigitsValueIsPositional(s[1..]);
    }
  }

  /** A text is read as an integer exactly if it is digits, after at most one sign, whose value is within the range. */
  lemma ReadsDecimal(s: string, min: int, max: int, n: int)
    ensures ParseInt(s, min, max) == Ok(n) <==>
            && min <= n <= max && s != ""
            && if s[0] == '-' then AllDigits(s[1..]) && n == -Positional(s[1..])
               else if s[0] == '+' then AllDigits(s[1..]) && n == Positional(s[1..])
               else AllDigits(s) && n == Positional(s)
  {
    if s != "" {
      if s[0] == '-' || s[0] == '+' {
        ReadsSigned(s, min, max, n);
      } else {
        ReadsUnsigned(s, min, max, n);
      }
    }
  }

  lemma PositiveRoundTrip(n: nat, min: int, max: int)
    requires min <= n <= max
    ensures ParseInt(FormatNat(n), min, max) == Ok(n)
  {
    NatRoundTrip(n);
    var s := FormatNat(n);
    assert IsDigit(s[0]);
  }

  lemma ParseNegative(digits: string, min: int, max: int)
    requires AllDigits(digits) && min <= 0 - DigitsValue(digits) <= max
    ensures ParseInt("-" + digits, min, max) == Ok(0 - DigitsValue(digits))
  {
    var s := "-" + digits;
    assert s[0] == '-' && s[1..] == digits;
  }

  lemma NegativeRoundTrip(n: int, min: int, max: int)
    requires min <= n <= max && n < 0
    ensures ParseInt("-" + FormatNat(-n), min, max) == Ok(n)
  {
    NatRoundTrip(-n);
    ParseNegative(FormatNat(-n), min, max);
  }

  lemma IntRoundTrip(n: int, min: int, max: int)
    requires min <= n <= max
    ensures ParseInt(FormatInt(n), min, max) == Ok(n)
  {
    if n < 0 {
      NegativeRoundTrip(n, min, max);
    } else {
      PositiveRoundTrip(n, min, max);
    }
  }

  // ---------------------------------------------------------------- scalars

  function EnumName(names: seq<(string, int)>, number: int): Result<string> {
    if names == [] then Err else if names[0].1 == number then Ok(names[0].0) else EnumName(names[1..], number)
  }

  function EnumNumber(names: seq<(string, int)>, name: string): Result<int> {
    if names == [] then Err else if names[0].0 == name then Ok(names[0].1) else EnumNumber(names[1..], name)
  }

  /** A byte string as the protobuf library prints it: "[1 2 3]". */
  function FormatBytes(b: string): string {
    "[" + FormatByteList(b) + "]"
  }

  function FormatByteList(b: string): (r: string)
  {
    if b == "" then "" else if |b| == 1 then FormatNat(b[0] as int) else FormatNat(b[0] as int) + " " + FormatByteList(b[1..])
  }

  lemma ByteListCons(x: char, b: string)
    requires b != ""
    ensures FormatByteList([x] + b) == FormatNat(x as int) + " " + FormatByteList(b)
  {
    assert ([x] + b)[1..] == b;
  }

  lemma Associate(u: string, v: string, w: string)
    ensures u + (v + w) == u + v + w
  {
  }

  lemma {:induction false} ByteListSnoc(b: string, c: char)
    requires b != ""
    ensures FormatByteList(b + [c]) == FormatByteList(b) + (" " + FormatNat(c as int))
  {
    var x, rest := b[0], b[1..];
    assert b + [c] == [x] + (rest + [c]);
    ByteListCons(x, rest + [c]);
    if rest == "" {
      assert rest + [c] == [c];
      Associate(FormatNat(x as int), " ", FormatNat(c as int));
    } else {
      ByteListSnoc(rest, c);
      assert b == [x] + rest;
      ByteListCons(x, rest);
      Associate(FormatNat(x as int) + " ", FormatByteList(rest), " " + FormatNat(c as int));
    }
  }

  /** A byte string is printed as a list of decimal numbers in brackets, each after a space but the first. */
  lemma PrintsByteList(b: string, c: char)
    ensures FormatBytes("") == "[]" && FormatBytes([c]) == "[" + FormatInt(c as int) + "]"
    ensures b != "" ==> FormatBytes(b + [c]) == FormatBytes(b)[..|FormatBytes(b)| - 1] + " " + FormatInt(c as int) + "]"
  {
    if b != "" {
      ByteListSnoc(b, c);
    }
    assert FormatBytes(b)[..|FormatBytes(b)| - 1] == "[" + FormatByteList(b);
  }

  predicate ValidNames(names: seq<(string, int)>) {
    forall i, j | 0 <= i < j < |names| :: names[i].0 != names[j].0
  }

  /** The values a field of a kind can hold; an enum number must be a declared one. */
  predicate HasKind(kind: Kind, v: Scalar) {
    match kind
    case StringKind => v.Str?
    case BytesKind => v.Bytes?
    case BoolKind => v.Bool?
    case Int32Kind => v.Num? && -0x8000_0000 <= v.n <= 0x7fff_ffff
    case Int64Kind => v.Num? && -0x8000_0000_0000_0000 <= v.n <= 0x7fff_ffff_ffff_ffff
    case Uint32Kind => v.Num? && 0 <= v.n <= 0xffff_ffff
    case Uint64Kind => v.Num? && 0 <= v.n <= 0xffff_ffff_ffff_ffff
    case EnumKind(names) => v.Enum? && ValidNames(names) && EnumName(names, v.number).Ok?
  }

  function ScalarString(kind: Kind, v: Scalar): string
    requires HasKind(kind, v)
  {
    match kind
    case StringKind => v.s
    case BytesKind => FormatBytes(v.b)
    case BoolKind => if v.x then "true" else "false"
    case EnumKind(names) => EnumName(names, v.number).value
    case _ => FormatInt(v.n)
  }

  function ParseBool(s: string): Result<bool> {
    if s in ["1", "t", "T", "TRUE", "true", "True"] then Ok(true)
    else if s in ["0", "f", "F", "FALSE", "false", "False"] then Ok(false)
    else Err
  }

  /** The texts that are read as a boolean. */
  lemma ReadsBool(s: string)
    ensures ParseBool(s) == Ok(true) <==> s == "1" || s == "t" || s == "T" || s == "true" || s == "TRUE" || s == "True"
    ensures ParseBool(s) == Ok(false) <==> s == "0" || s == "f" || s == "F" || s == "false" || s == "FALSE" || s == "False"
  {
  }

  function Wrap<T, U>(r: Result<T>, f: T -> U): Result<U> {
    if r.Ok? then Ok(f(r.value)) else Err
  }

  function ParseScalar(kind: Kind, s: string): Result<Scalar> {
    match kind
    case StringKind => Ok(Str(s))
    case BytesKind => Ok(Bytes(s))
    case BoolKind => Wrap(ParseBool(s), x => Bool(x))
    case Int32Kind => Wrap(ParseInt(s, -0x8000_0000, 0x7fff_ffff), n => Num(n))
    case Int64Kind => Wrap(ParseInt(s, -0x8000_0000_0000_0000, 0x7fff_ffff_ffff_ffff), n => Num(n))
    case Uint32Kind => Wrap(ParseUint(s, 0xffff_ffff), n => Num(n))
    case Uint64Kind => Wrap(ParseUint(s, 0xffff_ffff_ffff_ffff), n => Num(n))
    case EnumKind(names) => Wrap(EnumNumber(names, s), n => Enum(n))
  }

  lemma {:induction false} EnumRoundTrip(names: seq<(string, int)>, number: int)
    requires ValidNames(names) && EnumName(names, number).Ok?
    ensures EnumNumber(names, EnumName(names, number).value) == Ok(number)
    ensures exists i :: 0 <= i < |names| && names[i] == (EnumName(names, number).value, number)
  {
    if names[0].1 != number {
      EnumRoundTrip(names[1..], number);
      var i :| 0 <= i < |names[1..]| && names[1..][i] == (EnumName(names[1..], number).value, number);
      assert names[i + 1] == names[1..][i];
    }
  }

  lemma {:induction false} BytesPrintLonger(b: string)
    ensures |FormatByteList(b)| >= |b|
  {
    if |b| > 1 {
      BytesPrintLonger(b[1..]);
    }
  }

  /** Parsing what was printed gives the value back for every kind but bytes, and never for bytes: a byte string
      is printed as a bracketed list of numbers and that text itself is read back. */
  lemma ScalarRoundTrip(kind: Kind, v: Scalar)
    requires HasKind(kind, v)
    ensures ParseScalar(kind, ScalarString(kind, v)) == Ok(v) <==> !kind.BytesKind?
  {
    match kind
    case BytesKind => BytesPrintLonger(v.b);
    case Int32Kind => IntRoundTrip(v.n, -0x8000_0000, 0x7fff_ffff);
    case Int64Kind => IntRoundTrip(v.n, -0x8000_0000_0000_0000, 0x7fff_ffff_ffff_ffff);
    case Uint32Kind => NatRoundTrip(v.n);
    case Uint64Kind => NatRoundTrip(v.n);
    case EnumKind(names) => EnumRoundTrip(names, v.number);
    case _ =>
  }
}
