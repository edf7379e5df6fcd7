/**
 Decimal numerals: what `%d` prints, what strconv.Atoi reads, and the hand-written printer of
 internal/protocol/unknown/parser.go.
 */
module Decimal {
  import opened Common

  const ZERO: byte := 48

  predicate IsDigit(b: byte) { 48 <= b <= 57 }

  predicate AllDigits(s: bytes) { forall i :: 0 <= i < |s| ==> IsDigit(s[i]) }

  /** A numeral is canonical when it is non-empty and has no superfluous leading zero. */
  predicate Canonical(s: bytes) {
    s != [] && AllDigits(s) && (s[0] == ZERO ==> |s| == 1)
  }

  /** The numeral `%d` prints for a non-negative integer. */
  function Numeral(n: nat): bytes {
    if n < 10 then [48 + n] else Numeral(n / 10) + [48 + n % 10]
  }

  /** The number a digit string denotes. */
  function ValueOf(s: bytes): nat
    requires AllDigits(s)
  {
    if s == [] then 0 else 10 * ValueOf(s[..|s| - 1]) + (s[|s| - 1] - 48)
  }

  /** Printing then reading is the identity, and a printed numeral is canonical. */
  lemma {:induction false} NumeralReads(n: nat)
    ensures Canonical(Numeral(n)) && ValueOf(Numeral(n)) == n
    ensures n > 0 ==> Numeral(n)[0] != ZERO
  {
    if n >= 10 {
      NumeralReads(n / 10);
      assert Numeral(n)[..|Numeral(n)| - 1] == Numeral(n / 10);
    } else {
      assert Numeral(n)[..0] == [];
    }
  }

  /** Every canonical digit string is the numeral of the number it denotes, so it is the only one. */
  lemma {:induction false} CanonicalUnique(s: bytes)
    requires Canonical(s)
    ensures Numeral(ValueOf(s)) == s
  {
    var front, last := s[..|s| - 1], s[|s| - 1];
    assert s == front + [last];
    if front == [] {
    } else {
      CanonicalUnique(front);
      NumeralReads(ValueOf(front));
      assert front[0] == s[0];
    }
  }

  lemma NumeralInjective(m: nat, n: nat)
    requires Numeral(m) == Numeral(n)
    ensures m == n
  {
    NumeralReads(m);
    NumeralReads(n);
  }

  const PLUS: byte := 43
  const MINUS: byte := 45

  /** strconv.Atoi on a 64-bit platform: an optional sign, digits, and the range of int. */
  function Atoi(s: bytes): Option<int> {
    var body: bytes := if s != [] && (s[0] == PLUS || s[0] == MINUS) then s[1..] else s;
    if body == [] || !AllDigits(body) then None
    else if s[0] == MINUS then (if ValueOf(body) <= MAX_INT + 1 then Some(-(ValueOf(body) as int)) else None)
    else if ValueOf(body) <= MAX_INT then Some(ValueOf(body))
    else None
  }

  /** Atoi inverts the printer on the range of int. */
  lemma AtoiNumeral(n: nat)
    requires n <= MAX_INT
    ensures Atoi(Numeral(n)) == Some(n)
  {
    NumeralReads(n);
  }

  /** A sign may precede the digits, and then the number is signed. */
  lemma AtoiSigned(n: nat)
    requires n <= MAX_INT
    ensures Atoi([45] + Numeral(n)) == Some(-(n as int)) && Atoi([43] + Numeral(n)) == Some(n)
  {
    NumeralReads(n);
    assert ([45] + Numeral(n))[1..] == Numeral(n) && ([43] + Numeral(n))[1..] == Numeral(n);
  }

  /** Nothing is read from no digits, or when anything but digits stands behind the sign. */
  lemma AtoiRejects(s: bytes)
    requires s == [] || s == [43] || s == [45] || exists i :: 0 < i < |s| && !(48 <= s[i] <= 57)
    ensures Atoi(s).None?
  {
    if s != [] && s != [43] && s != [45] {
      var i :| 0 < i < |s| && !(48 <= s[i] <= 57);
      assert s[1..][i - 1] == s[i];
    }
  }

  function Reversed(s: bytes): (r: bytes) {
    if s == [] then [] else Reversed(s[1..]) + [s[0]]
  }

  lemma {:induction false} ReversedAt(s: bytes)
    ensures |Reversed(s)| == |s|
    ensures forall k :: 0 <= k < |s| ==> Reversed(s)[k] == s[|s| - 1 - k]
  {
    if s != [] {
      ReversedAt(s[1..]);
    }
  }

  lemma {:induction false} ReversedSnoc(s: bytes, b: byte)
    ensures Reversed(s + [b]) == [b] + Reversed(s)
  {
    ReversedAt(s);
    ReversedAt(s + [b]);
  }

  /** The two-index swap loop, in place. */
  method ReverseInPlace(a: array<byte>)
    modifies a
    ensures a[..] == Reversed(old(a[..]))
  {
    ghost var was := a[..];
    var i, j := 0, a.Length - 1;
    while i < j
      invariant 0 <= i <= j + 1 && i + j == a.Length - 1
      invariant forall k :: 0 <= k < i || j < k < a.Length ==> a[k] == was[a.Length - 1 - k]
      invariant forall k :: i <= k <= j ==> a[k] == was[k]
    {
      a[i], a[j] := a[j], a[i];
      i, j := i + 1, j - 1;
    }
    ReversedAt(was);
  }

  /** The digit loop collects the least significant digit first; the reversal puts them in order. */
  method IntToStr(n: int) returns (s: bytes)
    ensures n >= 0 ==> s == Numeral(n)
    ensures n < 0 ==> s == []
  {
    if n == 0 { return [ZERO]; }
    var buf: bytes, m := [], n;
    while m > 0
      invariant n < 0 ==> m == n && buf == []
      invariant n > 0 ==> m >= 0
      invariant n > 0 && m > 0 ==> Numeral(m) + Reversed(buf) == Numeral(n)
      invariant n > 0 && m == 0 ==> Reversed(buf) == Numeral(n)
    {
      ReversedSnoc(buf, 48 + m % 10);
      assert m >= 10 ==> Numeral(m / 10) + ([48 + m % 10] + Reversed(buf)) == Numeral(m) + Reversed(buf);
      buf := buf + [48 + m % 10];
      m := m / 10;
    }
    var a := new byte[|buf|](i requires 0 <= i < |buf| => buf[i]);
    assert a[..] == buf;
    ReverseInPlace(a);
    s := a[..];
  }

  // ------------------------------------------------------------------ hexadecimal

  function HexDigit(n: nat): byte
    requires n < 16
  {
    if n < 10 then 48 + n else 87 + n
  }

  /** `%0<width>x` for a number that fits the width. */
  function HexPadded(n: nat, width: nat): (s: bytes)
    ensures |s| == width
  {
    if width == 0 then [] else HexPadded(n / 16, width - 1) + [HexDigit(n % 16)]
  }

  function Power16(n: nat): nat { if n == 0 then 1 else 16 * Power16(n - 1) }

  /** The number a string of lower-case hexadecimal digits denotes; None when there is another character. */
  function HexValue(s: bytes): Option<nat> {
    if s == [] then Some(0)
    else
      var front, b := HexValue(s[..|s| - 1]), s[|s| - 1];
      if front.None? then None
      else if 48 <= b <= 57 then Some(16 * front.value + (b - 48))
      else if 97 <= b <= 102 then Some(16 * front.value + (b - 87))
      else None
  }

  /** A padded numeral reads back, most significant digit first. */
  lemma {:induction false} HexPaddedReads(n: nat, width: nat)
    requires n < Power16(width)
    ensures HexValue(HexPadded(n, width)) == Some(n)
  {
    if width > 0 {
      HexPaddedReads(n / 16, width - 1);
      assert HexPadded(n, width)[..width - 1] == HexPadded(n / 16, width - 1);
    }
  }

  lemma {:induction false} HexPaddedInjective(m: nat, n: nat, width: nat)
    requires m < Power16(width) && n < Power16(width) && HexPadded(m, width) == HexPadded(n, width)
    ensures m == n
  {
    if width > 0 {
      var a, b := HexPadded(m, width), HexPadded(n, width);
      assert a[..width - 1] == HexPadded(m / 16, width - 1) && b[..width - 1] == HexPadded(n / 16, width - 1);
      assert a[width - 1] == b[width - 1];
      HexPaddedInjective(m / 16, n / 16, width - 1);
    }
  }
}
