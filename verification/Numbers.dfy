/**
 Decimal numbers: `std::stoi` as the option and URL parsers use it, and the printer
 it undoes.
 */
module Numbers {
  import opened Bytes

  predicate IsDigit(c: char) {
    '0' <= c <= '9'
  }

  predicate IsSpace(c: char) {
    c == ' ' || '\t' <= c <= '\r'
  }

  function DigitValue(c: char): nat
    requires IsDigit(c)
  {
    c as int - '0' as int
  }

  function DigitChar(d: nat): (c: char)
    requires d < 10
    ensures IsDigit(c) && DigitValue(c) == d
  {
    ('0' as int + d) as char
  }

  /** The digits at the start of a string. */
  function LeadingDigits(s: string): (ds: string)
    ensures forall c | c in ds :: IsDigit(c)
  {
    if s == "" || !IsDigit(s[0]) then "" else [s[0]] + LeadingDigits(s[1..])
  }

  function Value(ds: string): nat
    requires forall c | c in ds :: IsDigit(c)
  {
    if ds == "" then 0
    else
      var n := |ds| - 1;
      assert ds[n] in ds && forall c | c in ds[..n] :: c in ds;
      Value(ds[..n]) * 10 + DigitValue(ds[n])
  }

  function SkipSpace(s: string): string {
    if s != "" && IsSpace(s[0]) then SkipSpace(s[1..]) else s
  }

  /** `std::stoi`: blanks, a sign and digits; what follows is ignored, and no digits or no `int` throws. */
  function Stoi(s: string): Result<int> {
    var t := SkipSpace(s);
    var negative := t != "" && t[0] == '-';
    var unsigned := if t != "" && (t[0] == '-' || t[0] == '+') then t[1..] else t;
    var ds := LeadingDigits(unsigned);
    if ds == "" then Throw
    else
      var n: int := Value(ds);
      var v := if negative then -n else n;
      if -0x8000_0000 <= v < 0x8000_0000 then Ok(v) else Throw
  }

  function Decimal(n: nat): (s: string)
    ensures s != "" && forall c | c in s :: IsDigit(c)
  {
    if n < 10 then [DigitChar(n)] else Decimal(n / 10) + [DigitChar(n % 10)]
  }

  lemma {:induction false} DecimalValue(n: nat)
    ensures Value(Decimal(n)) == n
  {
    if n >= 10 {
      DecimalValue(n / 10);
      assert Decimal(n)[..|Decimal(n)| - 1] == Decimal(n / 10);
    } else {
      assert Decimal(n)[..0] == "";
    }
  }

  lemma {:induction false} LeadingDigitsOf(ds: string, rest: string)
    requires forall c | c in ds :: IsDigit(c)
    requires rest == "" || !IsDigit(rest[0])
    ensures LeadingDigits(ds + rest) == ds
  {
    if ds == "" {
      assert ds + rest == rest;
    } else {
      assert ds[0] in ds && forall c | c in ds[1..] :: c in ds;
      assert (ds + rest)[1..] == ds[1..] + rest;
      LeadingDigitsOf(ds[1..], rest);
    }
  }

  /** Reading a printed number returns it, whatever non-digit follows. */
  lemma StoiDecimal(n: nat, rest: string)
    requires n < 0x8000_0000 && (rest == "" || !IsDigit(rest[0]))
    ensures Stoi(Decimal(n) + rest) == Ok(n)
  {
    var s := Decimal(n) + rest;
    assert s[0] == Decimal(n)[0] && Decimal(n)[0] in Decimal(n);
    LeadingDigitsOf(Decimal(n), rest);
    DecimalValue(n);
  }

  lemma {:induction false} SpacesSkipped(blanks: string, t: string)
    requires forall c | c in blanks :: IsSpace(c)
    requires t == "" || !IsSpace(t[0])
    ensures SkipSpace(blanks + t) == t
  {
    if blanks == "" {
      assert blanks + t == t;
    } else {
      assert blanks[0] in blanks && forall c | c in blanks[1..] :: c in blanks;
      assert (blanks + t)[1..] == blanks[1..] + t;
      SpacesSkipped(blanks[1..], t);
    }
  }

  /**
   Blanks, a sign and a number are read as the signed number when an `int` holds it and throw when not; whatever
   non-digit follows is ignored.
   */
  lemma StoiSigned(blanks: string, sign: string, n: nat, rest: string)
    requires forall c | c in blanks :: IsSpace(c)
    requires sign == "" || sign == "+" || sign == "-"
    requires rest == "" || !IsDigit(rest[0])
    ensures var v := if sign == "-" then 0 - n else n;
            Stoi(blanks + sign + Decimal(n) + rest)
            == if -0x8000_0000 <= v < 0x8000_0000 then Ok(v) else Throw
  {
    hide SkipSpace, Decimal, LeadingDigits, Value;
    var digits := Decimal(n) + rest;
    var t := sign + digits;
    assert digits[0] == Decimal(n)[0] && Decimal(n)[0] in Decimal(n);
    assert blanks + sign + Decimal(n) + rest == blanks + t;
    SpacesSkipped(blanks, t);
    if sign == "" { assert t == digits; } else { assert t[1..] == digits; }
    LeadingDigitsOf(Decimal(n), rest);
    DecimalValue(n);
  }

  /** Without a digit behind blanks and sign there is no number. */
  lemma StoiNeedsDigits(blanks: string, sign: string, rest: string)
    requires forall c | c in blanks :: IsSpace(c)
    requires sign == "+" || sign == "-" || (sign == "" && (rest == "" || !(IsSpace(rest[0]) || rest[0] in "+-")))
    requires rest == "" || !IsDigit(rest[0])
    ensures Stoi(blanks + sign + rest) == Throw
  {
    hide SkipSpace;
    var t := sign + rest;
    assert blanks + sign + rest == blanks + t;
    SpacesSkipped(blanks, t);
    if sign == "" { assert t == rest; } else { assert t[1..] == rest; }
    LeadingDigitsOf("", rest);
    assert "" + rest == rest;
  }
}
