/** Base-10 conversions of Go's strconv package: Itoa, and ParseInt with
    base 10 and bit size 64, including the values it returns together with
    an error (0 on a syntax error, the clamped bound on an overflow). */
module Decimal {

  predicate IsDigit(c: char) {
    '0' <= c <= '9'
  }

  predicate AllDigits(s: string) {
    forall i :: 0 <= i < |s| ==> IsDigit(s[i])
  }

  function DigitChar(d: int): (c: char)
    requires 0 <= d < 10
    ensures IsDigit(c)
  {
    (48 + d) as char
  }

  function DigitValue(c: char): (d: int)
    requires IsDigit(c)
    ensures 0 <= d < 10 && DigitChar(d) == c
  {
    c as int - 48
  }

  /** strconv.Itoa of a non-negative value: its decimal digits, most
      significant first, without leading zeros. */
  function NatToString(n: nat): (s: string)
    ensures 1 <= |s| && AllDigits(s)
    ensures s[0] == '0' ==> n == 0
  {
    if n < 10 then [DigitChar(n)] else NatToString(n / 10) + [DigitChar(n % 10)]
  }

  /** strconv.Itoa: a minus sign before the digits of a negative value. */
  function Itoa(i: int): string {
    if i < 0 then "-" + NatToString(-i) else NatToString(i)
  }

  /** The value of the digits `s` appended, left to right, to `acc`. */
  function Accumulate(acc: int, s: string): int
    requires AllDigits(s)
    decreases s
  {
    if s == [] then acc else Accumulate(acc * 10 + DigitValue(s[0]), s[1..])
  }

  /** The value of a digit string. */
  function DigitsValue(s: string): int
    requires AllDigits(s)
  {
    Accumulate(0, s)
  }

  lemma {:induction false} AccumulateSnoc(acc: int, s: string, c: char)
    requires AllDigits(s) && IsDigit(c)
    ensures AllDigits(s + [c])
    ensures Accumulate(acc, s + [c]) == Accumulate(acc, s) * 10 + DigitValue(c)
    decreases s
  {
    if s != [] {
      assert (s + [c])[1..] == s[1..] + [c];
      AccumulateSnoc(acc * 10 + DigitValue(s[0]), s[1..], c);
    }
  }

  lemma {:induction false} AccumulateGrows(acc: int, s: string)
    requires AllDigits(s) && 0 <= acc
    ensures acc <= Accumulate(acc, s)
    ensures s != [] ==> acc * 10 <= Accumulate(acc, s)
    decreases s
  {
    if s != [] {
      AccumulateGrows(acc * 10 + DigitValue(s[0]), s[1..]);
    }
  }

  /** Reading back the digits Itoa writes gives the value. */
  lemma {:induction false} DigitsValueOfNatToString(n: nat)
    ensures DigitsValue(NatToString(n)) == n
  {
    if n >= 10 {
      DigitsValueOfNatToString(n / 10);
      AccumulateSnoc(0, NatToString(n / 10), DigitChar(n % 10));
      assert NatToString(n) == NatToString(n / 10) + [DigitChar(n % 10)];
      assert DigitValue(DigitChar(n % 10)) == n % 10;
    } else {
      var s := NatToString(n);
      assert DigitValue(DigitChar(n)) == n;
      assert s[1..] == [];
      assert Accumulate(0, s) == Accumulate(n, []);
    }
  }

  const MaxUint64 := 0xFFFF_FFFF_FFFF_FFFF
  const MaxInt64 := 0x7FFF_FFFF_FFFF_FFFF
  const MinInt64 := -0x8000_0000_0000_0000
  /** The smallest value whose tenfold no longer fits in 64 bits. */
  const Cutoff := MaxUint64 / 10 + 1

  /** The error strconv reports with the value (a *NumError's Err field). */
  datatype Status = Ok | ErrSyntax | ErrRange

  datatype Parsed = Parsed(value: int, status: Status)

  /** The digit loop of strconv.ParseUint(s, 10, 64), with `acc` the value
      read so far: a non-digit is a syntax error; the first digit that
      takes the value past 64 bits is a range error, whatever follows. */
  function ParseUintFrom(acc: int, s: string): (r: Parsed)
    requires 0 <= acc <= MaxUint64
    ensures r.status == Ok ==> acc <= r.value <= MaxUint64
    ensures r.status == ErrRange ==> r.value == MaxUint64
    ensures r.status == ErrSyntax ==> r.value == 0
    decreases s
  {
    if s == [] then Parsed(acc, Ok)
    else if !IsDigit(s[0]) then Parsed(0, ErrSyntax)
    else if acc >= Cutoff then Parsed(MaxUint64, ErrRange)
    else if acc * 10 + DigitValue(s[0]) > MaxUint64 then Parsed(MaxUint64, ErrRange)
    else ParseUintFrom(acc * 10 + DigitValue(s[0]), s[1..])
  }

  /** strconv.ParseUint(s, 10, 64). */
  function ParseUint(s: string): Parsed {
    if s == "" then Parsed(0, ErrSyntax) else ParseUintFrom(0, s)
  }

  /** strconv.ParseInt(s, 10, 64): an optional sign, then ParseUint of the
      rest; a syntax error returns 0, a magnitude beyond the signed range
      returns the bound of that sign with ErrRange. */
  function ParseInt(s: string): (r: Parsed)
    ensures MinInt64 <= r.value <= MaxInt64
    ensures r.status == ErrSyntax ==> r.value == 0
    ensures r.status == ErrRange ==> s != [] && r.value == (if s[0] == '-' then MinInt64 else MaxInt64)
  {
    if s == "" then Parsed(0, ErrSyntax)
    else
      var neg := s[0] == '-';
      var u := ParseUint(if s[0] == '+' || s[0] == '-' then s[1..] else s);
      if u.status == ErrSyntax then Parsed(0, ErrSyntax)
      else if !neg && u.value >= MaxInt64 + 1 then Parsed(MaxInt64, ErrRange)
      else if neg && u.value > MaxInt64 + 1 then Parsed(MinInt64, ErrRange)
      else Parsed(if neg then -u.value else u.value, Ok)
  }

  /** On a digit string the loop either returns the value or, when the
      value does not fit in 64 bits, the range error. */
  lemma {:induction false} ParseUintFromDigits(acc: int, s: string)
    requires 0 <= acc <= MaxUint64 && AllDigits(s)
    ensures ParseUintFrom(acc, s) ==
      if Accumulate(acc, s) <= MaxUint64 then Parsed(Accumulate(acc, s), Ok)
      else Parsed(MaxUint64, ErrRange)
    decreases s
  {
    if s != [] {
      var next := acc * 10 + DigitValue(s[0]);
      AccumulateGrows(next, s[1..]);
      if next <= MaxUint64 {
        ParseUintFromDigits(next, s[1..]);
      }
    }
  }

  /** A plain run of digits parses to its value when that fits in an
      int64 and is clamped to MaxInt64 with ErrRange otherwise. */
  lemma ParseIntDigits(s: string)
    requires s != [] && AllDigits(s)
    ensures ParseInt(s) ==
      if DigitsValue(s) <= MaxInt64 then Parsed(DigitsValue(s), Ok)
      else Parsed(MaxInt64, ErrRange)
  {
    ParseUintFromDigits(0, s);
  }

  /** A sign followed by a run of digits parses to the signed value when
      it fits in an int64, and is clamped to the bound of that sign with
      ErrRange otherwise. */
  lemma ParseIntSignedDigits(sign: char, t: string)
    requires (sign == '+' || sign == '-') && t != [] && AllDigits(t)
    ensures sign == '+' ==>
      ParseInt([sign] + t) == (if DigitsValue(t) <= MaxInt64 then Parsed(DigitsValue(t), Ok)
                               else Parsed(MaxInt64, ErrRange))
    ensures sign == '-' ==>
      ParseInt([sign] + t) == (if DigitsValue(t) <= MaxInt64 + 1 then Parsed(-DigitsValue(t), Ok)
                               else Parsed(MinInt64, ErrRange))
  {
    assert ([sign] + t)[1..] == t;
    ParseUintFromDigits(0, t);
  }

  /** A string holding a non-digit never reads as a number: the loop
      stops with a syntax error, or earlier with a range error. */
  lemma {:induction false} ParseUintFromNonDigit(acc: int, s: string)
    requires 0 <= acc <= MaxUint64 && !AllDigits(s)
    ensures ParseUintFrom(acc, s).status != Ok
    decreases s
  {
    if IsDigit(s[0]) && acc < Cutoff && acc * 10 + DigitValue(s[0]) <= MaxUint64 {
      assert !AllDigits(s[1..]) by {
        var i :| 0 <= i < |s| && !IsDigit(s[i]);
        assert s[1..][i - 1] == s[i];
      }
      ParseUintFromNonDigit(acc * 10 + DigitValue(s[0]), s[1..]);
    }
  }

  /** The loop over a concatenation: the second part continues from the
      value the first part reached, unless the first part already failed. */
  lemma {:induction false} ParseUintFromConcat(acc: int, d: string, rest: string)
    requires 0 <= acc <= MaxUint64
    ensures var p := ParseUintFrom(acc, d);
      ParseUintFrom(acc, d + rest) == if p.status == Ok then ParseUintFrom(p.value, rest) else p
    decreases d
  {
    if d != [] {
      assert (d + rest)[0] == d[0] && (d + rest)[1..] == d[1..] + rest;
      if IsDigit(d[0]) && acc < Cutoff && acc * 10 + DigitValue(d[0]) <= MaxUint64 {
        ParseUintFromConcat(acc * 10 + DigitValue(d[0]), d[1..], rest);
      }
    } else {
      assert d + rest == rest;
    }
  }

  /** A timestamp field of digits followed by a non-digit, such as
      "1677999600000.0": a syntax error with value 0 when the digits fit
      in 64 bits, and MaxInt64 with a range error when they overflow
      first. */
  lemma DigitsThenNonDigit(d: string, c: char, rest: string)
    requires d != [] && AllDigits(d) && !IsDigit(c)
    ensures ParseInt(d + [c] + rest) ==
      if DigitsValue(d) <= MaxUint64 then Parsed(0, ErrSyntax) else Parsed(MaxInt64, ErrRange)
  {
    var s := d + [c] + rest;
    assert s == d + ([c] + rest);
    assert s[0] == d[0];
    ParseUintFromDigits(0, d);
    ParseUintFromConcat(0, d, [c] + rest);
  }

  /** ParseInt succeeds only on an optional sign followed by digits, and
      then returns their signed value: a field such as "12x" or "1.5" is
      a syntax error. */
  lemma ParseIntOkIsNumeral(s: string)
    requires ParseInt(s).status == Ok
    ensures s != []
    ensures var t := if s[0] == '+' || s[0] == '-' then s[1..] else s;
      && t != [] && AllDigits(t)
      && ParseInt(s).value == (if s[0] == '-' then -DigitsValue(t) else DigitsValue(t))
  {
    var t := if s[0] == '+' || s[0] == '-' then s[1..] else s;
    if !AllDigits(t) {
      ParseUintFromNonDigit(0, t);
    }
    if t != [] {
      ParseUintFromDigits(0, t);
    }
  }

  /** A number followed by other characters is a syntax error. */
  lemma ParseIntTrailingNonDigit()
    ensures ParseInt("12x") == Parsed(0, ErrSyntax)
    ensures ParseInt("1.5") == Parsed(0, ErrSyntax)
  {
    assert !IsDigit("12x"[2]) && !IsDigit("1.5"[1]);
    ParseUintFromNonDigit(0, "12x");
    ParseUintFromNonDigit(0, "1.5");
  }

  /** A string that is empty, or whose first character after an optional
      sign is not a digit, is a syntax error with value 0. */
  lemma ParseIntNoLeadingDigit(s: string)
    requires s == [] || (var t := if s[0] == '+' || s[0] == '-' then s[1..] else s;
                         t == [] || !IsDigit(t[0]))
    ensures ParseInt(s) == Parsed(0, ErrSyntax)
  {
  }

  /** ParseInt reads back every int64 that Itoa writes. */
  lemma ParseIntItoa(n: int)
    requires MinInt64 <= n <= MaxInt64
    ensures ParseInt(Itoa(n)) == Parsed(n, Ok)
  {
    var digits := NatToString(if n < 0 then -n else n);
    DigitsValueOfNatToString(if n < 0 then -n else n);
    ParseUintFromDigits(0, digits);
    if n < 0 {
      assert Itoa(n)[1..] == digits;
    }
  }
}
