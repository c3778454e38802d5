/** Canonical UTC timestamps of the years 0000 to 9999, "2006-01-02T15:04:05.000000000Z" (section 5.1
    of RFC 3339): fixed width, and in text order exactly when in time order. */
module Timestamps {
  import opened Bytes
  import opened Digits

  /** One numeric field: how many values it has, its first value, its width, and what follows it. */
  datatype Field = Field(radix: nat, first: nat, width: nat, separator: Text)

  const LAYOUT: seq<Field> := [
    Field(10000, 0, 4, Ascii("-")), Field(12, 1, 2, Ascii("-")), Field(31, 1, 2, Ascii("T")),
    Field(24, 0, 2, Ascii(":")), Field(60, 0, 2, Ascii(":")), Field(60, 0, 2, Ascii(".")),
    Field(1_000_000_000, 0, 9, Ascii("Z"))]

  ghost predicate Fits(layout: seq<Field>) {
    forall i :: 0 <= i < |layout| ==> layout[i].radix > 0 && layout[i].first + layout[i].radix <= Pow10(layout[i].width)
  }

  /** How many instants the fields distinguish. */
  function Count(layout: seq<Field>): nat {
    if layout == [] then 1 else layout[0].radix * Count(layout[1..])
  }

  /** The values of the fields at the t-th instant. */
  function Values(layout: seq<Field>, t: nat): (v: seq<nat>)
    ensures |v| == |layout|
  {
    if layout == [] then []
    else
      var unit := Count(layout[1..]);
      if unit == 0 then [0] + Values(layout[1..], 0)
      else [t / unit] + Values(layout[1..], t % unit)
  }

  function Print(layout: seq<Field>, v: seq<nat>): Text
    requires |v| == |layout|
  {
    if layout == [] then []
    else Padded(layout[0].first + v[0], layout[0].width) + layout[0].separator + Print(layout[1..], v[1..])
  }

  predicate LexLess(a: seq<nat>, b: seq<nat>)
    requires |a| == |b|
  {
    a != [] && (a[0] < b[0] || (a[0] == b[0] && LexLess(a[1..], b[1..])))
  }

  predicate InRange(layout: seq<Field>, v: seq<nat>)
    requires |v| == |layout|
  {
    forall i :: 0 <= i < |layout| ==> v[i] < layout[i].radix
  }

  lemma {:induction false} CountPositive(layout: seq<Field>)
    requires Fits(layout)
    ensures Count(layout) > 0
  {
    if layout != [] {
      CountPositive(layout[1..]);
      MultiplyPositive(layout[0].radix, Count(layout[1..]));
    }
  }

  lemma MultiplyPositive(a: nat, b: nat)
    requires a > 0 && b > 0
    ensures a * b > 0
  {
  }

  lemma QuotientBelow(t: nat, unit: nat, radix: nat)
    requires unit > 0 && t < radix * unit
    ensures t / unit < radix
  {
    if t / unit >= radix {
      MultiplyMonotone(radix, t / unit, unit);
    }
  }

  lemma MultiplyMonotone(a: nat, b: nat, c: nat)
    requires a <= b
    ensures a * c <= b * c
  {
  }

  lemma {:induction false} ValuesInRange(layout: seq<Field>, t: nat)
    requires Fits(layout) && t < Count(layout)
    ensures InRange(layout, Values(layout, t))
  {
    if layout != [] {
      var unit := Count(layout[1..]);
      CountPositive(layout[1..]);
      QuotientBelow(t, unit, layout[0].radix);
      ValuesInRange(layout[1..], t % unit);
      var v := Values(layout, t);
      forall i | 0 <= i < |layout| ensures v[i] < layout[i].radix {
        if i > 0 {
          assert v[i] == Values(layout[1..], t % unit)[i - 1] && layout[1..][i - 1] == layout[i];
        }
      }
    }
  }

  lemma DivisionOrder(a: nat, b: nat, unit: nat)
    requires unit > 0
    ensures a < b <==> a / unit < b / unit || (a / unit == b / unit && a % unit < b % unit)
  {
    EuclidOrder(a / unit, a % unit, b / unit, b % unit, unit);
  }

  lemma EuclidOrder(p: nat, x: nat, q: nat, y: nat, unit: nat)
    requires x < unit && y < unit
    ensures p * unit + x < q * unit + y <==> p < q || (p == q && x < y)
  {
    if p < q {
      MultiplyStep(p, q, unit);
    } else if q < p {
      MultiplyStep(q, p, unit);
    }
  }

  lemma {:induction false} MultiplyStep(p: nat, q: nat, unit: nat)
    requires p < q
    ensures p * unit + unit <= q * unit
  {
    MultiplyMonotone(p + 1, q, unit);
    assert (p + 1) * unit == p * unit + unit;
  }

  /** Earlier instants have lexicographically smaller fields. */
  lemma {:induction false} ValuesOrder(layout: seq<Field>, a: nat, b: nat)
    requires Fits(layout) && a < Count(layout) && b < Count(layout)
    ensures LexLess(Values(layout, a), Values(layout, b)) <==> a < b
  {
    if layout != [] {
      var unit := Count(layout[1..]);
      CountPositive(layout[1..]);
      ValuesOrder(layout[1..], a % unit, b % unit);
      DivisionOrder(a, b, unit);
    }
  }

  /** Lexicographically smaller fields print as smaller texts. */
  lemma {:induction false} PrintOrder(layout: seq<Field>, a: seq<nat>, b: seq<nat>)
    requires Fits(layout) && |a| == |b| == |layout| && InRange(layout, a) && InRange(layout, b)
    ensures Less(Print(layout, a), Print(layout, b)) <==> LexLess(a, b)
    ensures |Print(layout, a)| == |Print(layout, b)|
  {
    if layout != [] {
      var f := layout[0];
      PrintOrder(layout[1..], a[1..], b[1..]);
      PaddedOrder(f.first + a[0], f.first + b[0], f.width);
      PaddedInjective(f.first + a[0], f.first + b[0], f.width);
      var u, v := Print(layout[1..], a[1..]), Print(layout[1..], b[1..]);
      LessAfterPrefix(f.separator, u, v);
      LessBlocks(Padded(f.first + a[0], f.width), f.separator + u, Padded(f.first + b[0], f.width), f.separator + v);
      assert Padded(f.first + a[0], f.width) + f.separator + u == Padded(f.first + a[0], f.width) + (f.separator + u);
      assert Padded(f.first + b[0], f.width) + f.separator + v == Padded(f.first + b[0], f.width) + (f.separator + v);
    }
  }

  /** The canonical text of the t-th instant. */
  function TimeText(t: nat): Text {
    Print(LAYOUT, Values(LAYOUT, t))
  }

  lemma LayoutFits()
    ensures Fits(LAYOUT)
  {
    assert Pow10(2) == 100;
    assert Pow10(4) == 100 * Pow10(2);
    assert Pow10(9) == 100_000 * Pow10(4);
  }

  /** Canonical timestamps compare as texts exactly as the instants do, so no two are equal. */
  lemma TimestampsOrdered(a: nat, b: nat)
    requires a < Count(LAYOUT) && b < Count(LAYOUT)
    ensures Less(TimeText(a), TimeText(b)) <==> a < b
    ensures |TimeText(a)| == |TimeText(b)|
    ensures TimeText(a) == TimeText(b) ==> a == b
  {
    LayoutFits();
    hide Print, Values, LexLess, Less, Count;
    ValuesInRange(LAYOUT, a);
    ValuesInRange(LAYOUT, b);
    ValuesOrder(LAYOUT, a, b);
    ValuesOrder(LAYOUT, b, a);
    PrintOrder(LAYOUT, Values(LAYOUT, a), Values(LAYOUT, b));
    PrintOrder(LAYOUT, Values(LAYOUT, b), Values(LAYOUT, a));
  }

  /** The text of the instants of the layout from one field on. */
  function TextFrom(layout: seq<Field>, t: nat): Text {
    Print(layout, Values(layout, t))
  }

  /** The first field is the quotient by the unit that the others count, and they print the remainder. */
  lemma FirstField(layout: seq<Field>, f: Field, unit: nat, a: nat, rest: nat)
    requires layout != [] && layout[0] == f && unit == Count(layout[1..]) && rest < unit
    ensures TextFrom(layout, a * unit + rest)
      == Padded(f.first + a, f.width) + f.separator + TextFrom(layout[1..], rest)
    ensures Count(layout) == f.radix * unit
  {
    var t := a * unit + rest;
    EuclidOrder(t / unit, t % unit, a, rest, unit);
    EuclidOrder(a, rest, t / unit, t % unit, unit);
    var v := Values(layout, t);
    assert v[0] == a && v[1..] == Values(layout[1..], rest);
  }

  /** The canonical text of a date and a time of day, whose instants are counted as if every month had 31
      days. */
  lemma CanonicalText(t: nat, year: nat, month: nat, day: nat, hour: nat, minute: nat, second: nat, nano: nat)
    requires year < 10000 && 1 <= month <= 12 && 1 <= day <= 31
    requires hour < 24 && minute < 60 && second < 60 && nano < 1_000_000_000
    requires t == year * 32_140_800_000_000_000 + (month - 1) * 2_678_400_000_000_000 + (day - 1) * 86_400_000_000_000
      + hour * 3_600_000_000_000 + minute * 60_000_000_000 + second * 1_000_000_000 + nano
    ensures t < Count(LAYOUT)
    ensures TimeText(t) ==
      Padded(year, 4) + Ascii("-") + (Padded(month, 2) + Ascii("-") + (Padded(day, 2) + Ascii("T")
        + (Padded(hour, 2) + Ascii(":") + (Padded(minute, 2) + Ascii(":") + (Padded(second, 2) + Ascii(".")
        + (Padded(nano, 9) + Ascii("Z")))))))
  {
    hide Padded, Ascii, TextFrom, TimeText, Count;
    var rest := hour * 3_600_000_000_000 + minute * 60_000_000_000 + second * 1_000_000_000 + nano;
    TimeOfDay(rest, hour, minute, second, nano);
    DateBefore(t, year, month, day, rest);
    WholeText(t);
  }

  lemma DateBefore(t: nat, year: nat, month: nat, day: nat, rest: nat)
    requires year < 10000 && 1 <= month <= 12 && 1 <= day <= 31
    requires rest < 86_400_000_000_000 == Count(LAYOUT[3..])
    requires t == year * 32_140_800_000_000_000 + (month - 1) * 2_678_400_000_000_000 + (day - 1) * 86_400_000_000_000
      + rest
    ensures t < Count(LAYOUT)
    ensures TextFrom(LAYOUT, t) ==
      Padded(year, 4) + Ascii("-") + (Padded(month, 2) + Ascii("-") + (Padded(day, 2) + Ascii("T")
        + TextFrom(LAYOUT[3..], rest)))
  {
    hide Padded, Ascii, Print, Values, Count, TextFrom;
    LayoutFrom(0);
    LayoutFrom(1);
    LayoutFrom(2);
    FirstField(LAYOUT[2..], LAYOUT[2], 86_400_000_000_000, day - 1, rest);
    var r2 := (day - 1) * 86_400_000_000_000 + rest;
    FirstField(LAYOUT[1..], LAYOUT[1], 2_678_400_000_000_000, month - 1, r2);
    var r1 := (month - 1) * 2_678_400_000_000_000 + r2;
    FirstField(LAYOUT, LAYOUT[0], 32_140_800_000_000_000, year, r1);
  }

  lemma WholeText(t: nat)
    ensures TimeText(t) == TextFrom(LAYOUT, t)
  {
  }

  lemma LayoutFrom(k: nat)
    requires k < 7
    ensures LAYOUT[k..] != [] && LAYOUT[k..][0] == LAYOUT[k] && LAYOUT[k..][1..] == LAYOUT[k + 1..]
    ensures LAYOUT[0..] == LAYOUT && LAYOUT[7..] == []
  {
  }

  lemma TimeOfDay(t: nat, hour: nat, minute: nat, second: nat, nano: nat)
    requires hour < 24 && minute < 60 && second < 60 && nano < 1_000_000_000
    requires t == hour * 3_600_000_000_000 + minute * 60_000_000_000 + second * 1_000_000_000 + nano
    ensures Count(LAYOUT[3..]) == 86_400_000_000_000
    ensures TextFrom(LAYOUT[3..], t) ==
      Padded(hour, 2) + Ascii(":") + (Padded(minute, 2) + Ascii(":") + (Padded(second, 2) + Ascii(".")
        + (Padded(nano, 9) + Ascii("Z"))))
  {
    hide Padded, Ascii, Print, Values, Count, TextFrom;
    LayoutFrom(3);
    LayoutFrom(4);
    LayoutFrom(5);
    LayoutFrom(6);
    NothingLeft(LAYOUT[7..]);
    FirstField(LAYOUT[6..], LAYOUT[6], 1, nano, 0);
    FirstField(LAYOUT[5..], LAYOUT[5], 1_000_000_000, second, nano);
    var rest := second * 1_000_000_000 + nano;
    FirstField(LAYOUT[4..], LAYOUT[4], 60_000_000_000, minute, rest);
    rest := minute * 60_000_000_000 + rest;
    FirstField(LAYOUT[3..], LAYOUT[3], 3_600_000_000_000, hour, rest);
    assert Padded(nano, 9) + Ascii("Z") + [] == Padded(nano, 9) + Ascii("Z");
  }

  lemma NothingLeft(layout: seq<Field>)
    requires layout == []
    ensures Count(layout) == 1 && TextFrom(layout, 0) == []
  {
  }
}
