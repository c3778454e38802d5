/** The textual storage keys: base64url key parts, zero-padded numbers, and the prefixes that scans use. */
module KeyCodec {
  import opened Bytes

  datatype Decoded = Value(bytes: Text) | BadInput

  const COLON: byte := 58
  const RETURN: byte := 13

  /** The base64url alphabet (section 5 of RFC 4648). */
  function Symbol(v: int): byte
    requires 0 <= v < 64
  {
    if v < 26 then 65 + v
    else if v < 52 then 97 + v - 26
    else if v < 62 then 48 + v - 52
    else if v == 62 then 45
    else 95
  }

  function Value6(c: byte): (v: int)
    ensures -1 <= v < 64
    ensures v >= 0 ==> Symbol(v) == c
  {
    if 65 <= c <= 90 then c - 65
    else if 97 <= c <= 122 then c - 97 + 26
    else if 48 <= c <= 57 then c - 48 + 52
    else if c == 45 then 62
    else if c == 95 then 63
    else -1
  }

  lemma SymbolValue(v: int)
    requires 0 <= v < 64
    ensures Value6(Symbol(v)) == v
    ensures Symbol(v) !in {COLON, NEWLINE, RETURN}
  {
  }

  /** base64.RawURLEncoding.EncodeToString */
  function Encode(b: Text): Text {
    if |b| == 0 then []
    else if |b| == 1 then [Symbol(b[0] / 4), Symbol(b[0] % 4 * 16)]
    else if |b| == 2 then [Symbol(b[0] / 4), Symbol(b[0] % 4 * 16 + b[1] / 16), Symbol(b[1] % 16 * 4)]
    else Quad(b[0], b[1], b[2]) + Encode(b[3..])
  }

  function Quad(x: byte, y: byte, z: byte): (q: Text)
    ensures |q| == 4
  {
    [Symbol(x / 4), Symbol(x % 4 * 16 + y / 16), Symbol(y % 16 * 4 + z / 64), Symbol(z % 64)]
  }

  /** The decoder skips line breaks wherever they stand. */
  function Strip(t: Text): Text {
    if t == [] then []
    else if t[0] == NEWLINE || t[0] == RETURN then Strip(t[1..])
    else [t[0]] + Strip(t[1..])
  }

  /** base64.RawURLEncoding.DecodeString; like the original it ignores unused trailing bits. */
  function Decode(t: Text): Decoded {
    DecodeSymbols(Strip(t))
  }

  function DecodeSymbols(t: Text): Decoded {
    if |t| == 0 then Value([])
    else if |t| == 1 then BadInput
    else
      var a, b := Value6(t[0]), Value6(t[1]);
      if a < 0 || b < 0 then BadInput
      else if |t| == 2 then Value([a * 4 + b / 16])
      else
        var c := Value6(t[2]);
        if c < 0 then BadInput
        else if |t| == 3 then Value([a * 4 + b / 16, b % 16 * 16 + c / 4])
        else
          var d := Value6(t[3]);
          if d < 0 then BadInput
          else match DecodeSymbols(t[4..])
            case BadInput => BadInput
            case Value(rest) => Value([a * 4 + b / 16, b % 16 * 16 + c / 4, c % 4 * 64 + d] + rest)
  }

  ghost predicate Symbols(t: Text) {
    forall i :: 0 <= i < |t| ==> t[i] !in {COLON, NEWLINE, RETURN}
  }

  /** An encoded key part holds neither the key separator nor a line break. */
  lemma {:induction false} EncodeSymbols(b: Text)
    ensures Symbols(Encode(b))
  {
    forall v | 0 <= v < 64 ensures Symbol(v) !in {COLON, NEWLINE, RETURN} {
      SymbolValue(v);
    }
    if |b| >= 3 {
      EncodeSymbols(b[3..]);
    }
  }

  lemma {:induction false} StripSymbols(t: Text)
    requires Symbols(t)
    ensures Strip(t) == t
  {
    if t != [] {
      StripSymbols(t[1..]);
    }
  }

  /** Decoding inverts encoding. */
  lemma EncodeRoundTrip(b: Text)
    ensures Decode(Encode(b)) == Value(b)
  {
    EncodeSymbols(b);
    StripSymbols(Encode(b));
    SymbolsRoundTrip(b);
  }

  lemma Regroup(x: byte, y: byte, z: byte)
    ensures x / 4 * 4 + (x % 4 * 16 + y / 16) / 16 == x
    ensures (x % 4 * 16 + y / 16) % 16 * 16 + (y % 16 * 4 + z / 64) / 4 == y
    ensures (y % 16 * 4 + z / 64) % 4 * 64 + z % 64 == z
  {
  }

  lemma QuadValues(x: byte, y: byte, z: byte)
    ensures var q := Quad(x, y, z);
      && Value6(q[0]) == x / 4 && Value6(q[1]) == x % 4 * 16 + y / 16
      && Value6(q[2]) == y % 16 * 4 + z / 64 && Value6(q[3]) == z % 64
  {
    SymbolValue(x / 4);
    SymbolValue(x % 4 * 16 + y / 16);
    SymbolValue(y % 16 * 4 + z / 64);
    SymbolValue(z % 64);
  }

  /** A group of four symbols is decoded on its own. */
  lemma DecodeGroup(t: Text, a: nat, b: nat, c: nat, d: nat, x: byte, y: byte, z: byte)
    requires |t| >= 4 && DecodeSymbols(t[4..]).Value?
    requires Value6(t[0]) == a && Value6(t[1]) == b && Value6(t[2]) == c && Value6(t[3]) == d
    requires a * 4 + b / 16 == x && b % 16 * 16 + c / 4 == y && c % 4 * 64 + d == z
    ensures DecodeSymbols(t) == Value([x, y, z] + DecodeSymbols(t[4..]).bytes)
  {
    hide Value6;
  }

  lemma DecodeQuad(x: byte, y: byte, z: byte, rest: Text)
    requires DecodeSymbols(rest).Value?
    ensures DecodeSymbols(Quad(x, y, z) + rest) == Value([x, y, z] + DecodeSymbols(rest).bytes)
  {
    hide Value6, Symbol, Quad, DecodeSymbols;
    var q := Quad(x, y, z);
    var t := q + rest;
    assert t[4..] == rest && t[0] == q[0] && t[1] == q[1] && t[2] == q[2] && t[3] == q[3];
    QuadValues(x, y, z);
    Regroup(x, y, z);
    DecodeGroup(t, x / 4, x % 4 * 16 + y / 16, y % 16 * 4 + z / 64, z % 64, x, y, z);
  }

  lemma DecodeTwo(p: byte, q: byte)
    requires Value6(p) >= 0 && Value6(q) >= 0
    ensures DecodeSymbols([p, q]) == Value([Value6(p) * 4 + Value6(q) / 16])
  {
    hide Value6, Symbol;
  }

  lemma DecodeThree(p: byte, q: byte, r: byte)
    requires Value6(p) >= 0 && Value6(q) >= 0 && Value6(r) >= 0
    ensures DecodeSymbols([p, q, r]) == Value([Value6(p) * 4 + Value6(q) / 16, Value6(q) % 16 * 16 + Value6(r) / 4])
  {
    hide Value6, Symbol;
  }

  lemma DecodeTail(x: byte, y: byte)
    ensures DecodeSymbols(Encode([x])) == Value([x])
    ensures DecodeSymbols(Encode([x, y])) == Value([x, y])
  {
    SymbolValue(x / 4);
    SymbolValue(x % 4 * 16);
    SymbolValue(x % 4 * 16 + y / 16);
    SymbolValue(y % 16 * 4);
    Regroup(x, 0, 0);
    Regroup(x, y, 0);
    hide Value6, Symbol, DecodeSymbols;
    DecodeTwo(Symbol(x / 4), Symbol(x % 4 * 16));
    DecodeThree(Symbol(x / 4), Symbol(x % 4 * 16 + y / 16), Symbol(y % 16 * 4));
  }

  lemma {:induction false} SymbolsRoundTrip(b: Text)
    ensures DecodeSymbols(Encode(b)) == Value(b)
  {
    DecodeNothing();
    hide Value6, Symbol, Quad, Encode, DecodeSymbols;
    if |b| == 0 {
      assert b == [];
    } else if |b| == 1 {
      DecodeTail(b[0], 0);
      assert b == [b[0]];
    } else if |b| == 2 {
      DecodeTail(b[0], b[1]);
      assert b == [b[0], b[1]];
    } else {
      assert b == [b[0], b[1], b[2]] + b[3..];
      SymbolsRoundTrip(b[3..]);
      OneQuad(b[0], b[1], b[2], b[3..]);
      DecodeQuad(b[0], b[1], b[2], Encode(b[3..]));
    }
  }

  lemma DecodeNothing()
    ensures DecodeSymbols(Encode([])) == Value([])
  {
  }

  lemma EncodeInjective(a: Text, b: Text)
    requires Encode(a) == Encode(b)
    ensures a == b
  {
    EncodeRoundTrip(a);
    EncodeRoundTrip(b);
  }

  /** Vectors of section 10 of RFC 4648, and the two symbols of the URL-safe alphabet (section 5). */
  lemma EncodingVectors()
    ensures Encode(Ascii("f")) == Ascii("Zg") && Encode(Ascii("fo")) == Ascii("Zm8")
    ensures Encode(Ascii("foobar")) == Ascii("Zm9vYmFy")
    ensures Encode([0xFB, 0xFF, 0xFE]) == Ascii("-__-")
  {
    TailVectors();
    QuadVectors();
    hide Encode;
    assert Ascii("f") == [102] && Ascii("Zg") == [90, 103];
    assert Ascii("fo") == [102, 111] && Ascii("Zm8") == [90, 109, 56];
    assert Ascii("-__-") == [45, 95, 95, 45];
    assert Ascii("foobar") == [102, 111, 111, 98, 97, 114];
    assert Ascii("Zm9vYmFy") == [90, 109, 57, 118, 89, 109, 70, 121];
  }

  lemma TailVectors()
    ensures Encode([102]) == [90, 103] && Encode([102, 111]) == [90, 109, 56]
  {
  }

  lemma QuadVectors()
    ensures Encode([102, 111, 111, 98, 97, 114]) == [90, 109, 57, 118, 89, 109, 70, 121]
    ensures Encode([0xFB, 0xFF, 0xFE]) == [45, 95, 95, 45]
  {
    hide Encode, Quad;
    OneQuad(102, 111, 111, [98, 97, 114]);
    LastQuad(98, 97, 114);
    LastQuad(0xFB, 0xFF, 0xFE);
    QuadValuesOf();
    assert [102, 111, 111] + [98, 97, 114] == [102, 111, 111, 98, 97, 114];
    assert [90, 109, 57, 118] + [89, 109, 70, 121] == [90, 109, 57, 118, 89, 109, 70, 121];
  }

  lemma QuadValuesOf()
    ensures Quad(102, 111, 111) == [90, 109, 57, 118] && Quad(98, 97, 114) == [89, 109, 70, 121]
    ensures Quad(0xFB, 0xFF, 0xFE) == [45, 95, 95, 45]
  {
  }

  lemma LastQuad(x: byte, y: byte, z: byte)
    ensures Encode([x, y, z]) == Quad(x, y, z)
  {
    OneQuad(x, y, z, []);
    assert [x, y, z] + [] == [x, y, z];
  }

  lemma OneQuad(x: byte, y: byte, z: byte, rest: Text)
    ensures Encode([x, y, z] + rest) == Quad(x, y, z) + Encode(rest)
  {
    assert ([x, y, z] + rest)[3..] == rest;
  }

  /** Which texts decode: those of letters, digits, "-" and "_", with line breaks anywhere, whose other
      symbols are not one more than a multiple of four; every four symbols give three bytes. */
  lemma DecodesIff(t: Text)
    ensures Decode(t).Value? <==> |Strip(t)| % 4 != 1 && forall c :: c in t ==>
      c in {10, 13} || 'A' as int <= c <= 'Z' as int || 'a' as int <= c <= 'z' as int
        || '0' as int <= c <= '9' as int || c == '-' as int || c == '_' as int
    ensures Decode(t).Value? ==> |Decode(t).bytes| == |Strip(t)| * 3 / 4
  {
    hide Value6, DecodeSymbols, Strip;
    StripMembers(t);
    SymbolsDecodeIff(Strip(t));
    forall c: byte ensures Value6(c) >= 0 <==>
      'A' as int <= c <= 'Z' as int || 'a' as int <= c <= 'z' as int || '0' as int <= c <= '9' as int
        || c == '-' as int || c == '_' as int
    {
      AlphabetValue(c);
    }
  }

  lemma AlphabetValue(c: byte)
    ensures Value6(c) >= 0 <==>
      'A' as int <= c <= 'Z' as int || 'a' as int <= c <= 'z' as int || '0' as int <= c <= '9' as int
        || c == '-' as int || c == '_' as int
  {
  }

  /** Line breaks are skipped, and nothing else. */
  lemma {:induction false} StripMembers(t: Text)
    ensures forall c :: c in Strip(t) <==> c in t && c != 10 && c != 13
  {
    if t != [] {
      StripMembers(t[1..]);
      assert t == [t[0]] + t[1..];
    }
  }

  lemma {:induction false} SymbolsDecodeIff(t: Text)
    ensures DecodeSymbols(t).Value? <==> |t| % 4 != 1 && forall c :: c in t ==> Value6(c) >= 0
    ensures DecodeSymbols(t).Value? ==> |DecodeSymbols(t).bytes| == |t| * 3 / 4
    decreases |t|
  {
    hide Value6;
    if |t| >= 4 {
      SymbolsDecodeIff(t[4..]);
      assert t == [t[0], t[1], t[2], t[3]] + t[4..];
    }
  }

  /** Keys are not iterated in ID order: the IDs "c0" and "cA" ascend, their key parts descend. */
  lemma KeyOrderIsNotIdOrder()
    ensures var a, b: Text := [99, 48], [99, 65]; Less(a, b) && Less(Encode(b), Encode(a))
  {
    var a: Text, b: Text := [99, 48], [99, 65];
    assert Encode(a) == [89, 122, 65] && Encode(b) == [89, 48, 69];
    assert Less(a[1..], b[1..]);
    assert Less(Encode(b)[1..], Encode(a)[1..]);
  }
}
