/** strconv: the decimal and base-36 text of integers, with the readers that
    invert them. */
module Numerals {

  function Digit(d: nat): char
    requires d < 36
  {
    if d < 10 then '0' + d as char else 'a' + (d - 10) as char
  }

  function DigitValue(c: char): nat {
    if '0' <= c <= '9' then c as int - '0' as int
    else if 'a' <= c <= 'z' then c as int - 'a' as int + 10
    else 0
  }

  lemma DigitInverts(d: nat)
    requires d < 36
    ensures DigitValue(Digit(d)) == d && Digit(d) != ':' && Digit(d) != '-' && Digit(d) != '\U{0}'
  {
  }

  datatype Base = Decimal | ThirtySix

  function Times(x: nat, base: Base): nat {
    if base.Decimal? then 10 * x else 36 * x
  }

  function Quotient(x: nat, base: Base): nat {
    if base.Decimal? then x / 10 else x / 36
  }

  function Remainder(x: nat, base: Base): (r: nat)
    ensures r < 36 && x == Times(Quotient(x, base), base) + r
  {
    if base.Decimal? then x % 10 else x % 36
  }

  /** The digits of a natural number, most significant first. */
  function Digits(n: nat, base: Base): (r: string)
    ensures r != ""
    decreases n
  {
    if Quotient(n, base) == 0 then [Digit(Remainder(n, base))]
    else Digits(Quotient(n, base), base) + [Digit(Remainder(n, base))]
  }

  function Value(s: string, base: Base): nat {
    if s == "" then 0 else Times(Value(s[..|s| - 1], base), base) + DigitValue(s[|s| - 1])
  }

  lemma {:induction false} ValueInverts(n: nat, base: Base)
    ensures Value(Digits(n, base), base) == n
    ensures forall c | c in Digits(n, base) :: c != ':' && c != '-' && c != '\U{0}'
    decreases n
  {
    var r := Digits(n, base);
    DigitInverts(Remainder(n, base));
    if Quotient(n, base) == 0 {
      assert r[..|r| - 1] == "";
    } else {
      ValueInverts(Quotient(n, base), base);
      assert r[..|r| - 1] == Digits(Quotient(n, base), base);
    }
  }

  /** strconv.FormatInt. */
  function Format(i: int, base: Base): string {
    if i < 0 then "-" + Digits(-i, base) else Digits(i, base)
  }

  function Read(s: string, base: Base): int {
    if s != "" && s[0] == '-' then -(Value(s[1..], base) as int) else Value(s, base)
  }

  lemma PlainRead(text: string, base: Base)
    requires text != "" && text[0] != '-'
    ensures Read(text, base) == Value(text, base) && Read("-" + text, base) == -(Value(text, base) as int)
  {
  }

  /** Reading the text gives the integer back, and the text holds neither a colon nor a NUL. */
  lemma {:induction false} FormatInverts(i: int, base: Base)
    ensures Read(Format(i, base), base) == i
    ensures ':' !in Format(i, base) && '\U{0}' !in Format(i, base)
  {
    var n: nat := if i < 0 then -i else i;
    var text := Digits(n, base);
    ValueInverts(n, base);
    assert text[0] in text;
    PlainRead(text, base);
  }
}
