/** Decimal printing and the std::sto* parsers, with the integer widths of the source. */
module Numbers {
  import opened Wrappers
  import opened Text

  // Exclusive bounds of uint64_t, int and int64_t.
  const U64: nat := 0x1_0000_0000_0000_0000
  const INT_MAX: int := 0x8000_0000
  const I64_MAX: int := 0x8000_0000_0000_0000

  predicate AllDigits(s: string) {
    forall i :: 0 <= i < |s| ==> IsDigit(s[i])
  }

  function Digit(n: nat): (c: char)
    requires n < 10
    ensures IsDigit(c)
  {
    ('0' as int + n) as char
  }

  function DigitValue(c: char): nat
    requires IsDigit(c)
  {
    c as int - '0' as int
  }

  /** fmt::format("{}", n) and std::to_string(n). */
  function Decimal(n: nat): (s: string)
    ensures s != "" && AllDigits(s)
  {
    if n < 10 then [Digit(n)] else Decimal(n / 10) + [Digit(n % 10)]
  }

  function Value(s: string): nat
    requires AllDigits(s)
  {
    if s == "" then 0 else 10 * Value(s[..|s| - 1]) + DigitValue(s[|s| - 1])
  }

  /** Where the digits that start at `from` end. */
  function DigitsEnd(s: string, from: nat): (i: nat)
    requires from <= |s|
    ensures from <= i <= |s|
    ensures i < |s| ==> !IsDigit(s[i])
    decreases |s| - from
  {
    if from == |s| || !IsDigit(s[from]) then from else DigitsEnd(s, from + 1)
  }

  lemma {:induction false} DigitsUpToEnd(s: string, from: nat)
    requires from <= |s|
    ensures forall j :: from <= j < DigitsEnd(s, from) ==> IsDigit(s[j])
    decreases |s| - from
  {
    if from < |s| && IsDigit(s[from]) {
      DigitsUpToEnd(s, from + 1);
    }
  }

  /** Skips white space and one sign, as strtoull and strtol do: whether it is a minus, and where the digits start. */
  function AfterSign(s: string): (r: (bool, nat))
    ensures r.1 <= |s|
  {
    var i := SkipSpaces(s, 0);
    if i < |s| && (s[i] == '-' || s[i] == '+') then (s[i] == '-', i + 1) else (false, i)
  }

  /** The magnitude of the number that starts at a position, if there is one. */
  function Magnitude(s: string, start: nat): Option<nat>
    requires start <= |s|
  {
    var end := DigitsEnd(s, start);
    DigitsUpToEnd(s, start);
    if end == start then None else Some(Value(Substr(s, start, end)))
  }

  /**
   std::stoull and std::stoul on a 64-bit target: None is a thrown invalid_argument or
   out_of_range. Trailing characters are ignored and a minus sign wraps around.
   */
  function StoUll(s: string): (r: Option<nat>)
    ensures r.Some? ==> r.value < U64
  {
    var (neg, start) := AfterSign(s);
    var v :- Magnitude(s, start);
    if v >= U64 then None
    else if neg && v != 0 then Some(U64 - v)
    else Some(v)
  }

  /** std::stoi, base 10. */
  function StoI(s: string): (r: Option<int>)
    ensures r.Some? ==> -INT_MAX <= r.value < INT_MAX
  {
    var (neg, start) := AfterSign(s);
    var m :- Magnitude(s, start);
    var v: int := if neg then -(m as int) else m;
    if -INT_MAX <= v < INT_MAX then Some(v) else None
  }

  /** std::stoll. */
  function StoLl(s: string): (r: Option<int>)
    ensures r.Some? ==> -I64_MAX <= r.value < I64_MAX
  {
    var (neg, start) := AfterSign(s);
    var m :- Magnitude(s, start);
    var v: int := if neg then -(m as int) else m;
    if -I64_MAX <= v < I64_MAX then Some(v) else None
  }

  // ---- Hexadecimal ----

  predicate IsHex(c: char) {
    IsDigit(c) || 'A' <= c <= 'F' || 'a' <= c <= 'f'
  }

  function HexValue(c: char): (v: int)
    requires IsHex(c)
    ensures 0 <= v < 16
  {
    if IsDigit(c) then DigitValue(c)
    else if 'A' <= c <= 'F' then c as int - 'A' as int + 10
    else c as int - 'a' as int + 10
  }

  function UpperHex(n: nat): (c: char)
    requires n < 16
    ensures IsHex(c) && HexValue(c) == n
    ensures IsDigit(c) || 'A' <= c <= 'F'
  {
    if n < 10 then Digit(n) else ('A' as int + n - 10) as char
  }

  /**
   std::stoi(s, nullptr, 16) for the two characters that follow a percent sign. White space or a
   sign may stand in front of a single digit, and what follows the last digit is ignored.
   */
  function StoIHex(a: char, b: char): Option<int> {
    if IsHex(a) then Some(if IsHex(b) then 16 * HexValue(a) + HexValue(b) else HexValue(a))
    else if IsHex(b) && (IsSpace(a) || a == '+') then Some(HexValue(b))
    else if IsHex(b) && a == '-' then Some(-HexValue(b))
    else None
  }

  lemma {:induction false} ValueOfDecimal(n: nat)
    ensures Value(Decimal(n)) == n
  {
    if n >= 10 {
      ValueOfDecimal(n / 10);
      var s := Decimal(n);
      assert s[..|s| - 1] == Decimal(n / 10);
    }
  }

  lemma {:induction false} DecimalInjective(a: nat, b: nat)
    requires Decimal(a) == Decimal(b)
    ensures a == b
  {
    ValueOfDecimal(a);
    ValueOfDecimal(b);
  }

  lemma {:induction false} MagnitudeAt(s: string, pos: nat, digits: string)
    requires At(s, pos, digits) && digits != "" && AllDigits(digits)
    requires pos + |digits| == |s| || !IsDigit(s[pos + |digits|])
    ensures Magnitude(s, pos) == Some(Value(digits))
  {
    var end := DigitsEnd(s, pos);
    DigitsUpToEnd(s, pos);
    forall k | pos <= k < pos + |digits| ensures IsDigit(s[k]) {
      assert s[k] == digits[k - pos];
    }
    AtSlice(s, pos, digits);
  }

  lemma {:induction false} PrintedNumber(n: nat)
    ensures var d := Decimal(n); AfterSign(d) == (false, 0) && Magnitude(d, 0) == Some(n)
  {
    var d := Decimal(n);
    assert IsDigit(d[0]);
    assert SkipSpaces(d, 0) == 0;
    MagnitudeAt(d, 0, d);
    ValueOfDecimal(n);
  }

  /** Printing and parsing agree on every 64-bit number; a larger one is out of range. */
  lemma {:induction false} StoUllDecimal(n: nat)
    ensures StoUll(Decimal(n)) == if n < 0x1_0000_0000_0000_0000 then Some(n) else None
  {
    PrintedNumber(n);
  }

  lemma {:induction false} StoIDecimal(n: nat)
    ensures StoI(Decimal(n)) == if n < 0x8000_0000 then Some(n) else None
  {
    PrintedNumber(n);
  }

  lemma {:induction false} StoLlDecimal(n: nat)
    ensures StoLl(Decimal(n)) == if n < 0x8000_0000_0000_0000 then Some(n) else None
  {
    PrintedNumber(n);
  }
}
