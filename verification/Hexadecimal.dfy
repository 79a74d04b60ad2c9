/** Hexadecimal digits, in either case. */
module Hexadecimal {
  import opened Wrappers

  function Digit(c: char): (d: Option<nat>)
    ensures d.Some? ==> d.value < 16
  {
    if '0' <= c <= '9' then Some(c as int - '0' as int)
    else if 'a' <= c <= 'f' then Some(c as int - 'a' as int + 10)
    else if 'A' <= c <= 'F' then Some(c as int - 'A' as int + 10)
    else None
  }

  const LOWER := "0123456789abcdef"
  const UPPER := "0123456789ABCDEF"

  lemma DigitsAre(d: nat)
    requires d < 16
    ensures Digit(LOWER[d]) == Digit(UPPER[d]) == Some(d)
  {
    assert |LOWER| == |UPPER| == 16;
    assert LOWER[0] == '0' && LOWER[1] == '1' && LOWER[2] == '2' && LOWER[3] == '3' && LOWER[4] == '4';
    assert LOWER[5] == '5' && LOWER[6] == '6' && LOWER[7] == '7' && LOWER[8] == '8' && LOWER[9] == '9';
    assert LOWER[10] == 'a' && LOWER[11] == 'b' && LOWER[12] == 'c' && LOWER[13] == 'd' && LOWER[14] == 'e' && LOWER[15] == 'f';
    assert UPPER[..10] == LOWER[..10];
    assert UPPER[10] == 'A' && UPPER[11] == 'B' && UPPER[12] == 'C' && UPPER[13] == 'D' && UPPER[14] == 'E' && UPPER[15] == 'F';
  }

  ghost predicate IsAlphabet(digits: string) {
    |digits| == 16 && forall d: nat :: d < 16 ==> Digit(digits[d]) == Some(d)
  }

  lemma AlphabetsAre()
    ensures IsAlphabet(LOWER) && IsAlphabet(UPPER)
  {
    forall d: nat | d < 16 ensures Digit(LOWER[d]) == Digit(UPPER[d]) == Some(d) {
      DigitsAre(d);
    }
  }
}
