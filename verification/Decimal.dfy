/** Integers as decimal text, the way they are printed into statements and read from cells. */
module Decimal {
  import opened Wrappers

  function Digit(d: nat): char
    requires d < 10
  {
    '0' + d as char
  }

  function DigitValue(c: char): Option<nat> {
    if '0' <= c <= '9' then Some((c - '0') as nat) else None
  }

  function NatText(n: nat): string {
    if n < 10 then [Digit(n)] else NatText(n / 10) + [Digit(n % 10)]
  }

  function IntText(n: int): string {
    if n < 0 then "-" + NatText(-n) else NatText(n)
  }

  function ParseNat(s: string): Option<nat>
    decreases |s|
  {
    if s == [] then None else
    var last := DigitValue(s[|s| - 1]);
    if last.None? || |s| == 1 then last else
    var front := ParseNat(s[..|s| - 1]);
    if front.None? then None else Some(10 * front.value + last.value)
  }

  function ParseInt(s: string): Option<int> {
    if s != [] && s[0] == '-' then
      var n := ParseNat(s[1..]);
      if n.None? then None else
      var v: int := n.value;
      Some(-v)
    else
      var n := ParseNat(s);
      if n.None? then None else Some(n.value)
  }

  lemma {:induction false} NatReads(n: nat)
    ensures NatText(n) != [] && NatText(n)[0] != '-' && ParseNat(NatText(n)) == Some(n)
    decreases n
  {
    if n >= 10 {
      NatReads(n / 10);
      var front, text := NatText(n / 10), NatText(n);
      assert text[..|text| - 1] == front && text[|text| - 1] == Digit(n % 10);
    }
  }

  /** A printed integer reads back as itself. */
  lemma IntReads(n: int)
    ensures ParseInt(IntText(n)) == Some(n)
  {
    if n < 0 {
      NatReads(-n);
      assert IntText(n)[1..] == NatText(-n);
    } else {
      NatReads(n);
    }
  }
}
