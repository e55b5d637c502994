/** Decimal text of integers, as `strconv.FormatInt` and `strconv.ParseInt` in base 10. */
module Decimal {
  import opened Int64

  datatype Parsed = Number(value: int64) | Invalid

  function Digit(d: nat): char
    requires d < 10
  {
    '0' + d as char
  }

  function Natural(n: nat): string {
    if n < 10 then [Digit(n)] else Natural(n / 10) + [Digit(n % 10)]
  }

  function Format(n: int): string {
    if n < 0 then "-" + Natural(-n) else Natural(n)
  }

  predicate AreDigits(s: string) {
    forall i :: 0 <= i < |s| ==> '0' <= s[i] <= '9'
  }

  function Value(s: string): nat
    requires AreDigits(s)
  {
    if s == [] then 0 else 10 * Value(s[..|s| - 1]) + (s[|s| - 1] - '0') as nat
  }

  /** An optional sign, then at least one digit, in the range of int64. */
  function Parse(s: string): Parsed {
    var signed := s != "" && s[0] in {'+', '-'};
    var digits := if signed then s[1..] else s;
    if digits == "" || !AreDigits(digits) then Invalid
    else
      var n: int := if signed && s[0] == '-' then 0 - Value(digits) else Value(digits);
      if MIN <= n <= MAX then Number(n) else Invalid
  }

  lemma {:induction false} NaturalValue(n: nat)
    ensures Natural(n) != "" && AreDigits(Natural(n)) && Value(Natural(n)) == n
  {
    if n >= 10 {
      NaturalValue(n / 10);
      assert Natural(n)[..|Natural(n)| - 1] == Natural(n / 10);
    } else {
      assert Natural(n)[..0] == [];
    }
  }

  /** Parsing undoes formatting. */
  lemma FormatParses(n: int)
    requires MIN <= n <= MAX
    ensures Parse(Format(n)) == Number(n)
  {
    NaturalValue(if n < 0 then -n else n);
    if n < 0 {
      assert Format(n)[1..] == Natural(-n);
    }
  }

  predicate IsSign(sign: string) { sign in {"", "+", "-"} }

  ghost predicate Spells(s: string, sign: string, digits: string, n: int) {
    && IsSign(sign) && s == sign + digits && digits != "" && AreDigits(digits)
    && n == (if sign == "-" then 0 - Value(digits) else Value(digits))
  }

  /** A text is read as a number exactly if it is digits, perhaps with a sign, and the number fits. */
  lemma ParseIff(s: string, n: int64)
    ensures Parse(s) == Number(n) <==> exists sign, digits :: Spells(s, sign, digits, n)
  {
    if Parse(s) == Number(n) {
      var sign, digits := ParsedSpells(s, n);
    }
    if sign, digits :| Spells(s, sign, digits, n) {
      SpelledParses(s, sign, digits, n);
    }
  }

  lemma ParsedSpells(s: string, n: int64) returns (sign: string, digits: string)
    requires Parse(s) == Number(n)
    ensures Spells(s, sign, digits, n)
  {
    if s[0] == '+' || s[0] == '-' {
      sign, digits := [s[0]], s[1..];
      assert sign == if s[0] == '+' then "+" else "-";
    } else {
      sign, digits := "", s;
    }
    assert s == sign + digits;
  }

  lemma SpelledParses(s: string, sign: string, digits: string, n: int64)
    requires Spells(s, sign, digits, n)
    ensures Parse(s) == Number(n)
  {
    assert digits[0] != '+' && digits[0] != '-';
    if sign == "" {
      assert s == digits;
    } else {
      assert s[0] == sign[0] && s[1..] == digits;
    }
  }

  /** Written numbers have no plus, no leading zero and no negative zero. */
  lemma {:induction false} NaturalIsCanonical(n: nat)
    ensures Natural(n) != "" && (Natural(n)[0] == '0' <==> n == 0) && (n == 0 ==> Natural(n) == "0")
    ensures AreDigits(Natural(n))
  {
    if n >= 10 {
      NaturalIsCanonical(n / 10);
    }
  }

  lemma FormatIsCanonical(n: int)
    ensures n == 0 ==> Format(n) == "0"
    ensures n > 0 ==> Format(n) != "" && AreDigits(Format(n)) && Format(n)[0] != '0'
    ensures n < 0 ==> |Format(n)| > 1 && Format(n)[0] == '-' && AreDigits(Format(n)[1..]) && Format(n)[1] != '0'
  {
    NaturalIsCanonical(if n < 0 then -n else n);
  }
}
