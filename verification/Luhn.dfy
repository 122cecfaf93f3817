/** The Luhn check of Annex B of ISO/IEC 7812-1, as the card scanner computes it. */
module Luhn {

  type Byte = n: int | 0 <= n < 256
  type Digit = n: Byte | n < 10

  /** unicode.IsDigit and UTF-8 belong to Go's library. */
  datatype Unicode = Unicode(isDigit: char -> bool, utf8: char -> seq<Byte>)

  /** What is used of them: how they treat ASCII. */
  ghost predicate Lawful(u: Unicode) {
    forall c :: c < '\U{80}' ==> (u.isDigit(c) <==> '0' <= c <= '9') && u.utf8(c) == [c as int]
  }

  function Doubled(n: Byte): (r: nat)
    ensures n < 10 ==> r < 10
  {
    if 2 * n > 9 then 2 * n - 9 else 2 * n
  }

  function Weighted(n: Byte, alternate: bool): nat {
    if alternate then Doubled(n) else n
  }

  /** The weighted sum, read from the right; `alternate` says whether the last digit is doubled. */
  function Sum(d: seq<Byte>, alternate: bool): nat {
    if d == [] then 0
    else Weighted(d[|d| - 1], alternate) + Sum(d[..|d| - 1], !alternate)
  }

  predicate Accepted(d: seq<Byte>) {
    13 <= |d| <= 19 && Sum(d, false) % 10 == 0
  }

  /** The UTF-8 bytes of the decimal digits of a card string, of whatever script. */
  function Kept(u: Unicode, card: string): seq<Byte> {
    if card == "" then []
    else
      var k := |card| - 1;
      if u.isDigit(card[k]) then Kept(u, card[..k]) + u.utf8(card[k]) else Kept(u, card[..k])
  }

  /** What each byte counts: its distance from '0', as a byte. */
  function Values(bytes: seq<Byte>): (d: seq<Byte>)
    ensures |d| == |bytes|
  {
    seq(|bytes|, i requires 0 <= i < |bytes| => (bytes[i] as int - 48) % 256)
  }

  /** The ASCII digits of a card string. */
  function DigitsOf(card: string): seq<Digit> {
    if card == "" then []
    else
      var k := |card| - 1;
      if '0' <= card[k] <= '9' then DigitsOf(card[..k]) + [card[k] as int - '0' as int] else DigitsOf(card[..k])
  }

  lemma ValuesAppended(a: seq<Byte>, b: seq<Byte>)
    ensures Values(a + b) == Values(a) + Values(b)
  {
  }

  /** For a card whose digits are all ASCII the values are the digits. */
  lemma {:induction false} AsciiValues(u: Unicode, card: string)
    requires Lawful(u) && forall i :: 0 <= i < |card| && u.isDigit(card[i]) ==> card[i] < '\U{80}'
    ensures Values(Kept(u, card)) == DigitsOf(card)
  {
    if card != "" {
      var k := |card| - 1;
      AsciiValues(u, card[..k]);
      assert '0' <= card[k] <= '9' ==> u.isDigit(card[k]) && Values([card[k] as int]) == [card[k] as int - '0' as int];
      ValuesAppended(Kept(u, card[..k]), u.utf8(card[k]));
    }
  }

  /** Digits of other scripts count by their bytes; for ASCII digits this is the check of the standard. */
  method LuhnCheck(u: Unicode, card: string) returns (ok: bool)
    requires Lawful(u)
    ensures ok == Accepted(Values(Kept(u, card)))
    ensures (forall i :: 0 <= i < |card| && u.isDigit(card[i]) ==> card[i] < '\U{80}') ==>
              ok == Accepted(DigitsOf(card))
  {
    var digits: seq<Byte> := [];
    for i := 0 to |card|
      invariant digits == Kept(u, card[..i])
    {
      assert card[..i + 1][..i] == card[..i];
      if u.isDigit(card[i]) {
        digits := digits + u.utf8(card[i]);
      }
    }
    assert card[..|card|] == card;
    if forall i :: 0 <= i < |card| && u.isDigit(card[i]) ==> card[i] < '\U{80}' {
      AsciiValues(u, card);
    }
    if |digits| < 13 || |digits| > 19 {
      return false;
    }
    var sum := SumLoop(digits);
    return sum % 10 == 0;
  }

  lemma SumPrefix(d: seq<Byte>, i: nat, alternate: bool)
    requires i < |d|
    ensures Sum(d[..i + 1], alternate) == Weighted(d[i], alternate) + Sum(d[..i], !alternate)
  {
    assert d[..i + 1][..i] == d[..i];
  }

  method SumLoop(digits: seq<Byte>) returns (sum: nat)
    ensures sum == Sum(Values(digits), false)
  {
    var alternate := false;
    sum := 0;
    var i := |digits| - 1;
    ghost var values := Values(digits);
    assert values[..|digits|] == values;
    while i >= 0
      invariant -1 <= i < |digits|
      invariant sum + Sum(values[..i + 1], alternate) == Sum(values, false)
      decreases i
    {
      var n: int := (digits[i] as int - 48) % 256;
      if alternate {
        n := n * 2;
        if n > 9 {
          n := n - 9;
        }
      }
      SumPrefix(values, i, alternate);
      sum := sum + n;
      alternate := !alternate;
      i := i - 1;
    }
  }

  // ----- what the sum detects

  /** The last decimal digit. */
  function Last(x: nat): Digit {
    if x < 10 then x else Last(x - 10)
  }

  lemma {:induction false} LastIsMod(x: nat)
    ensures Last(x) == x % 10
  {
    if x >= 10 {
      LastIsMod(x - 10);
    }
  }

  /** Adding the same to both sides keeps the comparison of last digits. */
  lemma {:induction false} SameLast(x: nat, y: nat, r: nat)
    ensures Last(x + r) == Last(y + r) <==> Last(x) == Last(y)
  {
    if r >= 10 {
      SameLast(x, y, r - 10);
    } else if x >= 10 {
      SameLast(x - 10, y, r);
    } else if y >= 10 {
      SameLast(x, y - 10, r);
    }
  }

  lemma SumAppended(d: seq<Digit>, x: Digit, alternate: bool)
    ensures Sum(d + [x], alternate) == Weighted(x, alternate) + Sum(d, !alternate)
  {
    assert (d + [x])[..|d|] == d;
  }

  /** The same digit at the end of two numbers keeps the comparison of their sums. */
  lemma SameEnd(d: seq<Digit>, e: seq<Digit>, x: Digit, alternate: bool)
    ensures Last(Sum(d + [x], alternate)) == Last(Sum(e + [x], alternate))
            <==> Last(Sum(d, !alternate)) == Last(Sum(e, !alternate))
  {
    SumAppended(d, x, alternate);
    SumAppended(e, x, alternate);
    SameLast(Sum(d, !alternate), Sum(e, !alternate), Weighted(x, alternate));
  }

  /** Changing one digit always changes the last digit of the sum, whatever the length and position. */
  lemma {:induction false} SingleDigit(d: seq<Digit>, i: nat, x: Digit, alternate: bool)
    requires i < |d|
    ensures Last(Sum(d[i := x], alternate)) == Last(Sum(d, alternate)) <==> x == d[i]
  {
    var k := |d| - 1;
    var p, y := d[..k], d[k];
    assert d == p + [y];
    if i < k {
      SingleDigit(p, i, x, !alternate);
      assert d[i := x] == p[i := x] + [y];
      SameEnd(p[i := x], p, y, alternate);
    } else {
      assert d[i := x] == p + [x];
      SumAppended(p, x, alternate);
      SumAppended(p, y, alternate);
      SameLast(Weighted(x, alternate), Weighted(y, alternate), Sum(p, !alternate));
      DoublingKeepsApart(x, y);
    }
  }

  lemma DoublingKeepsApart(x: Digit, y: Digit)
    ensures Doubled(x) == Doubled(y) <==> x == y
  {
  }

  function Swap(d: seq<Digit>, i: nat): seq<Digit>
    requires i + 1 < |d|
  {
    d[i := d[i + 1]][i + 1 := d[i]]
  }

  predicate ZeroAndNine(a: Digit, b: Digit) {
    (a == 0 && b == 9) || (a == 9 && b == 0)
  }

  /** Swapping neighbours keeps the last digit of the sum exactly for equal digits and for 0 with 9. */
  lemma {:induction false} AdjacentSwap(d: seq<Digit>, i: nat, alternate: bool)
    requires i + 1 < |d|
    ensures Last(Sum(Swap(d, i), alternate)) == Last(Sum(d, alternate))
            <==> d[i] == d[i + 1] || ZeroAndNine(d[i], d[i + 1])
  {
    var k := |d| - 1;
    if i + 1 < k {
      var p, y := d[..k], d[k];
      AdjacentSwap(p, i, !alternate);
      assert Swap(d, i) == Swap(p, i) + [y] && d == p + [y];
      SameEnd(Swap(p, i), p, y, alternate);
    } else {
      var p := d[..i];
      assert Swap(d, i) == p + [d[k], d[i]] && d == p + [d[i], d[k]];
      SwapAtEnd(p, d[i], d[k], alternate);
    }
  }

  lemma SwapAtEnd(p: seq<Digit>, a: Digit, b: Digit, alternate: bool)
    ensures Last(Sum(p + [b, a], alternate)) == Last(Sum(p + [a, b], alternate)) <==> a == b || ZeroAndNine(a, b)
  {
    LastTwo(p, a, b, alternate);
    LastTwo(p, b, a, alternate);
    SwapPair(a, b, alternate);
    SameLast(Weighted(a, alternate) + Weighted(b, !alternate), Weighted(b, alternate) + Weighted(a, !alternate),
             Sum(p, alternate));
  }

  lemma LastTwo(p: seq<Digit>, a: Digit, b: Digit, alternate: bool)
    ensures Sum(p + [a, b], alternate) == Weighted(b, alternate) + Weighted(a, !alternate) + Sum(p, alternate)
  {
    assert p + [a, b] == (p + [a]) + [b];
    SumAppended(p + [a], b, alternate);
    SumAppended(p, a, !alternate);
  }

  lemma SwapPair(a: Digit, b: Digit, alternate: bool)
    ensures Last(Weighted(a, alternate) + Weighted(b, !alternate))
            == Last(Weighted(b, alternate) + Weighted(a, !alternate))
            <==> a == b || ZeroAndNine(a, b)
  {
  }

  function CheckDigit(prefix: seq<Digit>): Digit {
    (10 - Sum(prefix, true) % 10) % 10
  }

  /** Exactly one final digit completes a prefix. */
  lemma {:induction false} OneCheckDigit(prefix: seq<Digit>, x: Digit)
    ensures Sum(prefix + [x], false) % 10 == 0 <==> x == CheckDigit(prefix)
  {
    SumAppended(prefix, x, false);
    Complement(Sum(prefix, true), x);
  }

  lemma Complement(s: nat, x: Digit)
    ensures (x + s) % 10 == 0 <==> x == (10 - s % 10) % 10
  {
    var r := s % 10;
    assert x + s == x + r + 10 * (s / 10);
    assert (x + s) % 10 == (x + r) % 10;
  }

  /** So the scanner rejects every single-digit change of an accepted number ... */
  lemma {:induction false} RejectsSingleDigit(d: seq<Digit>, i: nat, x: Digit)
    requires Accepted(d) && i < |d| && x != d[i]
    ensures !Accepted(d[i := x])
  {
    SingleDigit(d, i, x, false);
    LastIsMod(Sum(d, false));
    LastIsMod(Sum(d[i := x], false));
  }

  /** ... and every swap of unequal neighbours but 0 with 9, which it accepts. */
  lemma {:induction false} RejectsAdjacentSwap(d: seq<Digit>, i: nat)
    requires Accepted(d) && i + 1 < |d| && d[i] != d[i + 1]
    ensures Accepted(Swap(d, i)) <==> ZeroAndNine(d[i], d[i + 1])
  {
    AdjacentSwap(d, i, false);
    LastIsMod(Sum(d, false));
    LastIsMod(Sum(Swap(d, i), false));
  }

  // ----- what the sum is

  /** Doubling a digit counts the digits of the double. */
  lemma DoubledIsDigitSum(n: Digit)
    ensures Doubled(n) == 2 * n / 10 + 2 * n % 10
  {
  }

  /** The same sum from the left: the last digit stands as it is, and every second one before it is doubled. */
  function FromLeft(d: seq<Byte>, k: nat, upTo: nat): nat
    requires k <= upTo <= |d|
    decreases upTo - k
  {
    if k == upTo then 0
    else Weighted(d[k], (|d| - 1 - k) % 2 == 1) + FromLeft(d, k + 1, upTo)
  }

  lemma {:induction false} FromLeftSplit(d: seq<Byte>, k: nat, upTo: nat)
    requires k < upTo <= |d|
    ensures FromLeft(d, k, upTo) == FromLeft(d, k, upTo - 1) + Weighted(d[upTo - 1], (|d| - upTo) % 2 == 1)
    decreases upTo - k
  {
    if k < upTo - 1 {
      FromLeftSplit(d, k + 1, upTo);
    }
  }

  lemma {:induction false} SumUpTo(d: seq<Byte>, n: nat)
    requires n <= |d|
    ensures Sum(d[..n], (|d| - n) % 2 == 1) == FromLeft(d, 0, n)
  {
    if n > 0 {
      SumPrefix(d, n - 1, (|d| - n) % 2 == 1);
      SumUpTo(d, n - 1);
      FromLeftSplit(d, 0, n);
      assert (|d| - (n - 1)) % 2 == 1 <==> (|d| - n) % 2 != 1;
    }
  }

  lemma {:induction false} SumIsFromLeft(d: seq<Byte>)
    ensures Sum(d, false) == FromLeft(d, 0, |d|)
  {
    SumUpTo(d, |d|);
    assert d[..|d|] == d;
  }

  /** A prefix and a final digit are accepted exactly when the length is right and the digit is the check digit. */
  lemma {:induction false} AcceptedIff(prefix: seq<Digit>, x: Digit)
    ensures Accepted(prefix + [x]) <==> 12 <= |prefix| <= 18 && x == CheckDigit(prefix)
  {
    OneCheckDigit(prefix, x);
  }

  /** The check digit brings the sum to a multiple of ten; 0 after nothing but zeros. */
  lemma {:induction false} ZerosAccepted(n: nat)
    requires 13 <= n <= 19
    ensures Accepted(seq(n, _ => 0))
  {
    ZerosSum(n, false);
  }

  lemma {:induction false} ZerosSum(n: nat, alternate: bool)
    ensures Sum(seq(n, _ => 0), alternate) == 0
  {
    if n > 0 {
      assert seq(n, _ => 0)[..n - 1] == seq(n - 1, _ => 0);
      ZerosSum(n - 1, !alternate);
    }
  }
}
