/**
Decimal text of 64-bit integers: strconv.Atoi (base 10, one optional sign, no
underscores, range of a 64-bit int) and the text that fmt.Sprint gives an int.
*/
module Strconv {
  import opened GoSlices

  const MIN_INT64: int := -0x8000_0000_0000_0000
  const MAX_INT64: int := 0x7fff_ffff_ffff_ffff

  predicate InInt64(n: int) {
    MIN_INT64 <= n <= MAX_INT64
  }

  predicate IsDigit(c: char) {
    '0' <= c <= '9'
  }

  predicate AllDigits(s: string) {
    forall i | 0 <= i < |s| :: IsDigit(s[i])
  }

  function DigitsValue(s: string): nat
    requires AllDigits(s)
  {
    if s == "" then 0
    else 10 * DigitsValue(s[..|s| - 1]) + (s[|s| - 1] as int - '0' as int)
  }

  predicate Signed(s: string) {
    s != "" && (s[0] == '-' || s[0] == '+')
  }

  function Unsigned(s: string): string {
    if Signed(s) then s[1..] else s
  }

  function Atoi(s: string): Option<int> {
    var digits := Unsigned(s);
    if digits == "" || !AllDigits(digits) then None
    else
      var n: int := if s[0] == '-' then 0 - DigitsValue(digits) else DigitsValue(digits);
      if InInt64(n) then Some(n) else None
  }

  function Digit(d: nat): char
    requires d < 10
  {
    '0' + d as char
  }

  function DecimalNat(n: nat): string {
    if n < 10 then [Digit(n)] else DecimalNat(n / 10) + [Digit(n % 10)]
  }

  function Sprint(n: int): string {
    if n < 0 then "-" + DecimalNat(-n) else DecimalNat(n)
  }

  function Zeros(z: nat): string {
    seq(z, _ => '0')
  }

  // Digits are read as decimal numbers are: each digit by its name, the last one as the units.
  lemma DigitsArePositional(s: string, i: nat)
    requires AllDigits(s) && i < 10
    ensures DigitsValue("") == 0
    ensures DigitsValue(s + ["0123456789"[i]]) == 10 * DigitsValue(s) + i
  {
    var t := s + ["0123456789"[i]];
    assert t[..|t| - 1] == s && t[|t| - 1] == "0123456789"[i];
  }

  // The texts of the lifespans that a pod can be asked to tolerate.
  lemma LifespanTexts(k: nat)
    requires k <= 14
    ensures Sprint(k) == ["0", "1", "2", "3", "4", "5", "6", "7", "8", "9", "10", "11", "12", "13", "14"][k]
  {
    if k >= 10 {
      assert DecimalNat(k / 10) == "1";
    }
  }

  // The decimal text of n: digits that are read as n, without a leading zero.
  lemma {:induction false} DecimalNatParses(n: nat)
    ensures DecimalNat(n) != "" && AllDigits(DecimalNat(n))
    ensures DigitsValue(DecimalNat(n)) == n
    ensures n > 0 ==> DecimalNat(n)[0] != '0'
    ensures n == 0 ==> DecimalNat(n) == "0"
  {
    if n < 10 {
      assert DecimalNat(n)[..0] == "";
    } else {
      DecimalNatParses(n / 10);
      var s := DecimalNat(n);
      assert s[..|s| - 1] == DecimalNat(n / 10);
    }
  }

  // Digits are their value's decimal text behind some number of leading zeros.
  lemma {:induction false} DigitsAreDecimal(s: string) returns (z: nat)
    requires s != "" && AllDigits(s)
    ensures s == Zeros(z) + DecimalNat(DigitsValue(s))
  {
    var last := s[|s| - 1] as int - '0' as int;
    var front := s[..|s| - 1];
    assert s == front + [Digit(last)];
    if front == "" {
      z := 0;
      assert DigitsValue(front) == 0;
      assert Zeros(0) == "";
    } else {
      z := DigitsAreDecimal(front);
      if DigitsValue(front) == 0 {
        assert DecimalNat(0) == "0";
        assert front == Zeros(z) + "0" == Zeros(z + 1);
        z := z + 1;
      } else {
        assert DecimalNat(DigitsValue(s)) == DecimalNat(DigitsValue(front)) + [Digit(last)];
      }
    }
  }

  lemma {:induction false} LeadingZerosIgnored(z: nat, t: string)
    requires AllDigits(t)
    ensures AllDigits(Zeros(z) + t) && DigitsValue(Zeros(z) + t) == DigitsValue(t)
    decreases z + |t|
  {
    var s := Zeros(z) + t;
    if t != "" {
      LeadingZerosIgnored(z, t[..|t| - 1]);
      assert s[..|s| - 1] == Zeros(z) + t[..|t| - 1];
    } else if z > 0 {
      LeadingZerosIgnored(z - 1, "");
      assert s[..|s| - 1] == Zeros(z - 1) + "";
    } else {
      assert s == "";
    }
  }

  // Printing and then parsing gives the number back, for exactly the 64-bit integers.
  lemma AtoiSprint(n: int)
    ensures Atoi(Sprint(n)) == if -0x8000_0000_0000_0000 <= n <= 0x7fff_ffff_ffff_ffff then Some(n) else None
    ensures Sprint(n) == if n < 0 then "-" + Sprint(-n) else DecimalNat(n)
  {
    var m := if n < 0 then -n else n;
    DecimalNatParses(m);
    var digits := DecimalNat(m);
    assert IsDigit(digits[0]);
    assert Unsigned(Sprint(n)) == digits;
  }

  lemma SprintInjective(m: int, n: int)
    requires Sprint(m) == Sprint(n)
    ensures m == n
  {
    var a, b := if m < 0 then -m else m, if n < 0 then -n else n;
    DecimalNatParses(a);
    DecimalNatParses(b);
    assert IsDigit(DecimalNat(a)[0]) && IsDigit(DecimalNat(b)[0]);
    if m < 0 && n < 0 {
      assert DecimalNat(a) == Sprint(m)[1..] == DecimalNat(b);
    }
  }

  function Abs(n: int): nat {
    if n < 0 then -n else n
  }

  // A sign that Atoi accepts in front of the digits of n.
  predicate SignFor(sign: string, n: int) {
    if sign == "-" then n <= 0 else n >= 0 && (sign == "" || sign == "+")
  }

  // Which texts read as n: an accepted sign, leading zeros, the decimal text of |n|.
  ghost predicate Spells(s: string, n: int) {
    exists sign: string, z: nat :: SignFor(sign, n) && s == sign + (Zeros(z) + DecimalNat(Abs(n)))
  }

  lemma ParsedTextSpells(s: string, n: int)
    requires Atoi(s) == Some(n)
    ensures Spells(s, n)
  {
    var z := DigitsAreDecimal(Unsigned(s));
    var sign := if Signed(s) then [s[0]] else "";
    assert s == sign + Unsigned(s);
    assert SignFor(sign, n);
  }

  lemma SpelledTextParses(sign: string, z: nat, n: int)
    requires SignFor(sign, n) && InInt64(n)
    ensures Atoi(sign + (Zeros(z) + DecimalNat(Abs(n)))) == Some(n)
  {
    var digits := Zeros(z) + DecimalNat(Abs(n));
    DecimalNatParses(Abs(n));
    LeadingZerosIgnored(z, DecimalNat(Abs(n)));
    assert IsDigit(digits[0]);
    assert sign == "" ==> sign + digits == digits;
    assert Unsigned(sign + digits) == digits;
  }

  lemma AtoiReads(s: string, n: int)
    ensures Atoi(s) == Some(n) <==> -0x8000_0000_0000_0000 <= n <= 0x7fff_ffff_ffff_ffff && Spells(s, n)
  {
    if Atoi(s) == Some(n) {
      ParsedTextSpells(s, n);
    }
    if InInt64(n) && Spells(s, n) {
      var sign: string, z: nat :| SignFor(sign, n) && s == sign + (Zeros(z) + DecimalNat(Abs(n)));
      SpelledTextParses(sign, z, n);
    }
  }
}
