/** Decimal text: plain, and zero-padded to a fixed width so that text order is number order. */
module Digits {
  import opened Bytes

  const ZERO: byte := 48

  /** strconv.Itoa for a natural number. */
  function Decimal(n: nat): Text {
    if n < 10 then [ZERO + n] else Decimal(n / 10) + [ZERO + n % 10]
  }

  /** fmt's %0<w>d for a number of at most w digits. */
  function Padded(n: nat, w: nat): (t: Text)
    ensures |t| == w
    decreases w
  {
    if w == 0 then [] else Padded(n / 10, w - 1) + [ZERO + n % 10]
  }

  function Pow10(w: nat): (p: nat)
    ensures p > 0
  {
    if w == 0 then 1 else 10 * Pow10(w - 1)
  }

  predicate AllDigits(t: Text) {
    forall i :: 0 <= i < |t| ==> ZERO <= t[i] <= ZERO + 9
  }

  /** The number that a text of digits denotes. */
  function Number(t: Text): nat
    requires AllDigits(t)
  {
    if t == [] then 0 else Number(t[..|t| - 1]) * 10 + (t[|t| - 1] - ZERO)
  }

  lemma {:induction false} DecimalNumber(n: nat)
    ensures AllDigits(Decimal(n)) && Number(Decimal(n)) == n && Decimal(n) != []
  {
    if n >= 10 {
      DecimalNumber(n / 10);
      var t := Decimal(n);
      assert t[..|t| - 1] == Decimal(n / 10);
    } else {
      assert Decimal(n)[..0] == [];
    }
  }

  lemma {:induction false} PaddedNumber(n: nat, w: nat)
    requires n < Pow10(w)
    ensures AllDigits(Padded(n, w)) && Number(Padded(n, w)) == n
    decreases w
  {
    if w > 0 {
      PaddedNumber(n / 10, w - 1);
      var t := Padded(n, w);
      assert t[..|t| - 1] == Padded(n / 10, w - 1);
    }
  }

  /** Texts of one length are ordered by the first block in which they differ. */
  lemma {:induction false} LessBlocks(x: Text, u: Text, y: Text, v: Text)
    requires |x| == |y|
    ensures Less(x + u, y + v) <==> Less(x, y) || (x == y && Less(u, v))
  {
    if x == [] {
      assert x + u == u && y + v == v;
    } else {
      assert (x + u)[1..] == x[1..] + u && (y + v)[1..] == y[1..] + v;
      LessBlocks(x[1..], u, y[1..], v);
      assert x == [x[0]] + x[1..] && y == [y[0]] + y[1..];
      if x == y {
        LessIrreflexive(x);
      }
    }
  }

  /** Numbers of at most w digits compare as their padded texts do. */
  lemma {:induction false} PaddedOrder(a: nat, b: nat, w: nat)
    requires a < Pow10(w) && b < Pow10(w)
    ensures Less(Padded(a, w), Padded(b, w)) <==> a < b
    decreases w
  {
    if w > 0 {
      PaddedOrder(a / 10, b / 10, w - 1);
      PaddedInjective(a / 10, b / 10, w - 1);
      var x: Text, y: Text := [ZERO + a % 10], [ZERO + b % 10];
      LessBlocks(Padded(a / 10, w - 1), x, Padded(b / 10, w - 1), y);
      assert Less(x, y) <==> a % 10 < b % 10 by {
        assert x[1..] == [] && y[1..] == [];
      }
    }
  }

  lemma PaddedInjective(a: nat, b: nat, w: nat)
    requires a < Pow10(w) && b < Pow10(w)
    ensures Padded(a, w) == Padded(b, w) <==> a == b
  {
    PaddedNumber(a, w);
    PaddedNumber(b, w);
  }

  lemma DecimalInjective(a: nat, b: nat)
    requires Decimal(a) == Decimal(b)
    ensures a == b
  {
    DecimalNumber(a);
    DecimalNumber(b);
  }

  /** A number below ten is written as its ASCII digit. */
  lemma OneDigit(n: nat)
    requires n < 10
    ensures Decimal(n) == ['0' as int + n] == Padded(n, 1)
    ensures AllDigits(['0' as int + n]) && Number(['0' as int + n]) == n
  {
    var t: Text := ['0' as int + n];
    assert t[..0] == [];
  }

  datatype Parsed = Value(number: nat) | Invalid

  /** strconv.ParseUint in base 10 with 64 bits. */
  function ParseUint(t: Text): Parsed {
    if t == [] || !AllDigits(t) then Invalid
    else if Number(t) > 0xFFFF_FFFF_FFFF_FFFF then Invalid
    else Value(Number(t))
  }
}
