/** White space as Go's strings and bytes packages trim it: Unicode's, in UTF-8. */
module WhiteSpace {
  import opened Bytes

  predicate IsAsciiSpace(c: byte) {
    9 <= c <= 13 || c == 32
  }

  /** The UTF-8 encodings, of two bytes and of three, of the white space outside ASCII. */
  predicate IsSpace2(c: byte, d: byte) {
    c == 0xC2 && (d == 0x85 || d == 0xA0)
  }

  predicate IsSpace3(c: byte, d: byte, e: byte) {
    || (c == 0xE1 && d == 0x9A && e == 0x80)
    || (c == 0xE2 && d == 0x80 && (0x80 <= e <= 0x8A || e == 0xA8 || e == 0xA9 || e == 0xAF))
    || (c == 0xE2 && d == 0x81 && e == 0x9F)
    || (c == 0xE3 && d == 0x80 && e == 0x80)
  }

  /** The width of the white space that a text begins with; 0 if it begins with none. */
  function SpaceAhead(t: Text): (w: nat)
    ensures w <= |t|
  {
    if |t| >= 1 && IsAsciiSpace(t[0]) then 1
    else if |t| >= 2 && IsSpace2(t[0], t[1]) then 2
    else if |t| >= 3 && IsSpace3(t[0], t[1], t[2]) then 3
    else 0
  }

  function SpaceBehind(t: Text): (w: nat)
    ensures w <= |t|
  {
    var n := |t|;
    if n >= 1 && IsAsciiSpace(t[n - 1]) then 1
    else if n >= 2 && IsSpace2(t[n - 2], t[n - 1]) then 2
    else if n >= 3 && IsSpace3(t[n - 3], t[n - 2], t[n - 1]) then 3
    else 0
  }

  function TrimLeft(t: Text): Text
    decreases |t|
  {
    var w := SpaceAhead(t);
    if w > 0 then TrimLeft(t[w..]) else t
  }

  function TrimRight(t: Text): Text
    decreases |t|
  {
    var w := SpaceBehind(t);
    if w > 0 then TrimRight(t[..|t| - w]) else t
  }

  /** bytes.TrimSpace */
  function Trim(t: Text): Text {
    TrimRight(TrimLeft(t))
  }

  /** The UTF-8 encoding of a code point below 0x10000 (section 3 of RFC 3629). */
  function Utf8(c: nat): Text
    requires c < 0x1_0000
  {
    if c < 0x80 then [c]
    else if c < 0x800 then [0xC0 + c / 0x40, 0x80 + c % 0x40]
    else [0xE0 + c / 0x1000, 0x80 + c / 0x40 % 0x40, 0x80 + c % 0x40]
  }

  predicate IsUnicodeSpace(c: nat) {
    9 <= c <= 13 || 0x2000 <= c <= 0x200A || c in {0x20, 0x85, 0xA0, 0x1680, 0x2028, 0x2029, 0x202F, 0x205F, 0x3000}
  }

  /** At either end of a text exactly the encodings of Unicode's white space are taken for white space. */
  lemma SpacesAreUnicode(c: nat, rest: Text)
    requires c < 0x1_0000
    ensures SpaceAhead(Utf8(c) + rest) == if IsUnicodeSpace(c) then |Utf8(c)| else 0
    ensures SpaceBehind(rest + Utf8(c)) == if IsUnicodeSpace(c) then |Utf8(c)| else 0
  {
    if c >= 0x800 {
      assert c == 0x1000 * (c / 0x1000) + 0x40 * (c / 0x40 % 0x40) + c % 0x40;
    }
  }

  /** White space and nothing else. */
  predicate OnlySpace(t: Text)
    decreases |t|
  {
    t == [] || (SpaceAhead(t) > 0 && OnlySpace(t[SpaceAhead(t)..]))
  }

  /** Trimming takes white space off both ends, nothing else, and leaves none there. */
  lemma TrimTakesSpace(t: Text) returns (a: Text, b: Text)
    ensures t == a + Trim(t) + b && OnlySpace(a) && OnlySpace(b)
    ensures SpaceAhead(Trim(t)) == 0 && SpaceBehind(Trim(t)) == 0
  {
    hide TrimLeft, TrimRight, SpaceAhead, SpaceBehind, OnlySpace;
    a := LeftTaken(t);
    b := RightTaken(TrimLeft(t));
    assert a + (Trim(t) + b) == a + Trim(t) + b;
    SpaceStaysAhead(Trim(t), b);
  }

  lemma SpaceStaysAhead(t: Text, b: Text)
    ensures SpaceAhead(t) > 0 ==> SpaceAhead(t + b) == SpaceAhead(t)
  {
  }

  lemma {:induction false} LeftTaken(t: Text) returns (a: Text)
    ensures t == a + TrimLeft(t) && OnlySpace(a) && SpaceAhead(TrimLeft(t)) == 0
    decreases |t|
  {
    hide SpaceAhead, OnlySpace;
    var w := SpaceAhead(t);
    if w == 0 {
      a := [];
      NoSpace();
    } else {
      assert t == t[..w] + t[w..];
      var rest := LeftTaken(t[w..]);
      a := t[..w] + rest;
      SpaceFirst(t, w, rest);
    }
  }

  lemma NoSpace()
    ensures OnlySpace([])
  {
  }

  lemma SpaceFirst(t: Text, w: nat, rest: Text)
    requires 0 < w == SpaceAhead(t) && OnlySpace(rest)
    ensures OnlySpace(t[..w] + rest)
  {
    var u := t[..w] + rest;
    assert u[0] == t[0] && (w >= 2 ==> u[1] == t[1]) && (w >= 3 ==> u[2] == t[2]);
    assert u[w..] == rest;
  }

  lemma {:induction false} RightTaken(t: Text) returns (b: Text)
    ensures t == TrimRight(t) + b && OnlySpace(b) && SpaceBehind(TrimRight(t)) == 0
    decreases |t|
  {
    hide SpaceBehind, OnlySpace;
    var w := SpaceBehind(t);
    if w == 0 {
      b := [];
      NoSpace();
    } else {
      assert t == t[..|t| - w] + t[|t| - w..];
      var front := RightTaken(t[..|t| - w]);
      b := front + t[|t| - w..];
      SpaceLast(front, t, w);
    }
  }

  lemma LastIsSpace(t: Text, w: nat)
    requires 0 < w == SpaceBehind(t)
    ensures SpaceAhead(t[|t| - w..]) == w
  {
    var n := |t|;
    var last := t[n - w..];
    assert last[w - 1] == t[n - 1] && (w >= 2 ==> last[w - 2] == t[n - 2]) && (w >= 3 ==> last[0] == t[n - 3]);
  }

  lemma {:induction false} SpaceLast(front: Text, t: Text, w: nat)
    requires OnlySpace(front) && 0 < w == SpaceBehind(t)
    ensures OnlySpace(front + t[|t| - w..])
    decreases |front|
  {
    var last := t[|t| - w..];
    if front == [] {
      assert front + last == last;
      LastIsSpace(t, w);
      assert last[w..] == [];
    } else {
      var v := SpaceAhead(front);
      SpaceLast(front[v..], t, w);
      assert front + last == front[..v] + (front[v..] + last);
      SpaceFirst(front, v, front[v..] + last);
    }
  }
}
