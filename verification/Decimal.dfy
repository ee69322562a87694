/** Python's `str(n)` and `int(s)` on integers: the printed form that ends up in Redis
    fields and webhook headers, and the parser that reads it back. */
module Decimal {
  import opened Wrappers

  predicate IsDigit(c: char) { '0' <= c <= '9' }

  function Digit(d: nat): (c: char)
    requires d < 10
    ensures IsDigit(c)
  {
    '0' + d as char
  }

  function Value(c: char): nat
    requires IsDigit(c)
  {
    (c as int) - ('0' as int)
  }

  /** Digits of a natural number, most significant first, no leading zero. */
  function StrNat(n: nat): (s: string)
    ensures |s| > 0 && forall c | c in s :: IsDigit(c)
  {
    if n < 10 then [Digit(n)] else StrNat(n / 10) + [Digit(n % 10)]
  }

  /** `str(n)`. */
  function Str(n: int): (s: string)
    ensures |s| > 0 && forall c | c in s :: IsDigit(c) || c == '-'
  {
    if n < 0 then "-" + StrNat(-n) else StrNat(n)
  }

  predicate IsSpace(c: char) { c == ' ' || '\t' <= c <= '\r' }

  function StripLeft(s: string): string {
    if s != "" && IsSpace(s[0]) then StripLeft(s[1..]) else s
  }

  function StripRight(s: string): string {
    if s != "" && IsSpace(s[|s| - 1]) then StripRight(s[..|s| - 1]) else s
  }

  /** A nonempty run of digits in which single underscores may separate digits. */
  function ParseDigits(s: string): Option<nat> {
    if s == "" || !IsDigit(s[|s| - 1]) then None
    else
      var last := Value(s[|s| - 1]);
      var front := s[..|s| - 1];
      if front == "" then Some(last)
      else
        var rest := if front[|front| - 1] == '_' then front[..|front| - 1] else front;
        match ParseDigits(rest)
        case None => None
        case Some(n) => Some(10 * n + last)
  }

  function Negate(parsed: Option<int>): Option<int> {
    if parsed.Some? then Some(-parsed.value) else None
  }

  /** `int(s)` on ASCII text; `None` is a ValueError. */
  function ParseInt(s: string): Option<int> {
    var t := StripRight(StripLeft(s));
    if t == "" then None
    else if t[0] == '-' then
      Negate(ParseDigits(t[1..]))
    else if t[0] == '+' then ParseDigits(t[1..])
    else ParseDigits(t)
  }

  lemma {:induction false} ParseStrNat(n: nat)
    ensures ParseDigits(StrNat(n)) == Some(n)
  {
    if n >= 10 {
      ParseStrNat(n / 10);
      var front := StrNat(n / 10);
      assert StrNat(n)[..|StrNat(n)| - 1] == front;
      assert IsDigit(front[|front| - 1]);
    } else {
      assert StrNat(n)[..0] == "";
    }
  }

  lemma NothingToStrip(s: string)
    requires s != "" && !IsSpace(s[0]) && !IsSpace(s[|s| - 1])
    ensures StripRight(StripLeft(s)) == s
  {
  }

  lemma ParsePlain(s: string)
    requires s != "" && forall c | c in s :: IsDigit(c)
    ensures ParseInt(s) == ParseDigits(s)
  {
    assert IsDigit(s[0]) && IsDigit(s[|s| - 1]);
    NothingToStrip(s);
  }

  lemma ParseNegative(s: string)
    requires s != "" && forall c | c in s :: IsDigit(c)
    ensures ParseInt("-" + s) == Negate(ParseDigits(s))
  {
    var t := "-" + s;
    assert t[|t| - 1] == s[|s| - 1] && IsDigit(s[|s| - 1]);
    NothingToStrip(t);
    assert t[1..] == s;
  }

  /** Reading back what was printed gives the same integer. */
  lemma ParseStr(n: int)
    ensures ParseInt(Str(n)) == Some(n)
  {
    if n < 0 {
      ParseStrNat(-n);
      ParseNegative(StrNat(-n));
    } else {
      ParseStrNat(n);
      ParsePlain(StrNat(n));
    }
  }

  /** Different integers print differently. */
  lemma StrInjective(a: int, b: int)
    requires Str(a) == Str(b)
    ensures a == b
  {
    ParseStr(a);
    ParseStr(b);
  }

  /** A plus sign does not matter ... */
  lemma ParseSigned(n: nat)
    ensures ParseInt("+" + StrNat(n)) == Some(n)
  {
    var s := StrNat(n);
    ParseStrNat(n);
    var t := "+" + s;
    assert s[|s| - 1] in s && t[|t| - 1] == s[|s| - 1] && t[1..] == s;
    NothingToStrip(t);
  }

  lemma Unpadded(s: string)
    requires s != "" && !IsSpace(s[0]) && !IsSpace(s[|s| - 1])
    ensures StripRight(StripLeft(" " + s + " ")) == s
  {
    var right := s + " ";
    assert (" " + s + " ")[1..] == right;
    assert StripLeft(right) == right;
    assert right[..|right| - 1] == s;
    assert StripRight(s) == s;
  }

  /** ... nor do surrounding spaces. */
  lemma ParsePadded(n: int)
    ensures ParseInt(" " + Str(n) + " ") == Some(n)
  {
    var s := Str(n);
    assert s[0] in s && s[|s| - 1] in s;
    Unpadded(s);
    NothingToStrip(s);
    ParseStr(n);
  }
}
