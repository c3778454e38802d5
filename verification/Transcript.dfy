/** The transcript behind a mesh proof: each part after its length in four bytes. */
module Transcript {
  import opened Bytes

  const LENGTHS: nat := 0x1_0000_0000

  /** binary.BigEndian.PutUint32 of a length, which wraps at 2^32. */
  function Length4(n: nat): (t: Text)
    ensures |t| == 4
  {
    var m := n % LENGTHS;
    [m / 0x100_0000, m / 0x1_0000 % 0x100, m / 0x100 % 0x100, m % 0x100]
  }

  function Uint32(t: Text): nat
    requires |t| == 4
  {
    var a: nat, b: nat, c: nat, d: nat := t[0], t[1], t[2], t[3];
    a * 0x100_0000 + b * 0x1_0000 + c * 0x100 + d
  }

  lemma LengthRoundTrip(n: nat)
    ensures Uint32(Length4(n)) == n % LENGTHS
  {
    var m := n % LENGTHS;
    var p := m / 0x100;
    var q := p / 0x100;
    assert m / 0x1_0000 == q && m / 0x100_0000 == q / 0x100;
    assert m == p * 0x100 + m % 0x100;
    assert p == q * 0x100 + p % 0x100;
    assert q == q / 0x100 * 0x100 + q % 0x100;
  }

  /** The four bytes stand in the order of their weight: as texts they compare as the lengths do. */
  lemma LengthsOrdered(a: nat, b: nat)
    requires a < LENGTHS && b < LENGTHS
    ensures Less(Length4(a), Length4(b)) <==> a < b
  {
    LengthRoundTrip(a);
    LengthRoundTrip(b);
    BytesOrdered(Length4(a), Length4(b));
  }

  lemma BytesOrdered(x: Text, y: Text)
    requires |x| == |y| == 4
    ensures Less(x, y) <==> Uint32(x) < Uint32(y)
  {
    assert x[3..][1..] == [] && Less(x[3..], y[3..]) <==> x[3] < y[3];
    assert x[2..][1..] == x[3..] && y[2..][1..] == y[3..];
    assert Less(x[2..], y[2..]) <==> x[2] < y[2] || (x[2] == y[2] && x[3] < y[3]);
    assert x[1..][1..] == x[2..] && y[1..][1..] == y[2..];
    assert Less(x[1..], y[1..]) <==> x[1] < y[1] || (x[1] == y[1] && Less(x[2..], y[2..]));
  }

  function Encode(parts: seq<Text>): Text {
    if parts == [] then [] else Length4(|parts[0]|) + (parts[0] + Encode(parts[1..]))
  }

  datatype Decoded = Parts(parts: seq<Text>) | Invalid

  function Decode(t: Text): Decoded {
    if t == [] then Parts([])
    else if |t| < 4 || |t| - 4 < Uint32(t[..4]) then Invalid
    else
      var n := 4 + Uint32(t[..4]);
      match Decode(t[n..])
      case Invalid => Invalid
      case Parts(rest) => Parts([t[4..n]] + rest)
  }

  /** Short parts can be read back from a transcript, so it determines their list: two lists with one
      transcript are the same list. */
  lemma {:induction false} TranscriptRoundTrip(parts: seq<Text>)
    requires forall p :: p in parts ==> |p| < LENGTHS
    ensures Decode(Encode(parts)) == Parts(parts)
  {
    if parts != [] {
      assert parts[0] in parts;
      forall p | p in parts[1..] ensures |p| < LENGTHS {
        assert p in parts;
      }
      TranscriptRoundTrip(parts[1..]);
      FirstPart(parts[0], Encode(parts[1..]));
      assert parts == [parts[0]] + parts[1..];
    }
  }

  lemma FirstPart(p: Text, rest: Text)
    requires |p| < LENGTHS && Decode(rest).Parts?
    ensures Decode(Length4(|p|) + (p + rest)) == Parts([p] + Decode(rest).parts)
  {
    hide Length4, Uint32, Decode;
    LengthRoundTrip(|p|);
    Slices(Length4(|p|), p, rest);
    DecodeFirst(Length4(|p|) + (p + rest), |p|);
  }

  lemma DecodeFirst(t: Text, n: nat)
    requires |t| >= 4 + n && Uint32(t[..4]) == n && Decode(t[4 + n..]).Parts?
    ensures Decode(t) == Parts([t[4..4 + n]] + Decode(t[4 + n..]).parts)
  {
    hide Uint32;
  }

  lemma Slices(a: Text, p: Text, rest: Text)
    ensures var t := a + (p + rest);
      t[..|a|] == a && t[|a|..|a| + |p|] == p && t[|a| + |p|..] == rest
  {
  }

  lemma TranscriptInjective(a: seq<Text>, b: seq<Text>)
    requires forall p :: p in a + b ==> |p| < LENGTHS
    requires Encode(a) == Encode(b)
    ensures a == b
  {
    forall p | p in a ensures |p| < LENGTHS {
      assert p in a + b;
    }
    forall p | p in b ensures |p| < LENGTHS {
      assert p in a + b;
    }
    TranscriptRoundTrip(a);
    TranscriptRoundTrip(b);
  }

  /** A part of 2^32 bytes wraps its length, and its transcript is that of other parts. */
  lemma LongPartsAreAmbiguous(x: Text)
    requires |x| == LENGTHS - 4
    ensures var p := Encode([x]); |p| == LENGTHS && Encode([p]) == Encode([[], x]) && [p] != [[], x]
  {
    var p: Text := Encode([x]);
    assert [x][1..] == [] && Encode([]) == [];
    assert p == Length4(|x|) + x;
    var one: seq<Text> := [p];
    assert one[1..] == [];
    assert Encode([p]) == Length4(|p|) + p;
    assert Length4(LENGTHS) == Length4(0);
    assert [[], x][1..] == [x];
    assert Encode([[], x]) == Length4(0) + p;
  }
}
