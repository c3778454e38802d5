/** The storage keys as texts: no two records share one, scans by prefix select exactly one network or
    stream, and the arrival index iterates in arrival order. */
module Keys {
  import opened Bytes
  import opened Hlc
  import opened Digits
  import opened Timestamps
  import opened KeyCodec
  import opened Store

  const SEPARATOR: Text := [COLON]
  const EVENT_TAG: Text := Ascii("event-v3:")
  const EVENT_ID_TAG: Text := Ascii("event-id-v3:")
  const ARRIVAL_TAG: Text := Ascii("event-arrival-v1:")
  const SIPHON_TAG: Text := Ascii("durable-siphon-v1:")

  function Part(t: Text): Text {
    Encode(t) + SEPARATOR
  }

  function NetworkPrefix(network: Text): Text {
    EVENT_TAG + Part(network)
  }

  function StreamPrefix(network: Text, stream: Text): Text {
    EVENT_TAG + (Part(network) + Part(stream))
  }

  /** eventKey */
  function EventKey(k: Key): Text {
    EVENT_TAG + (Part(k.network) + (Part(k.stream) + EventKeyTail(k)))
  }

  function EventKeyTail(k: Key): Text {
    TimeText(k.occurredAt) + (SEPARATOR + (Padded(k.counter, 20) + (SEPARATOR + (Part(k.device) + Encode(k.id)))))
  }

  /** eventIDKey */
  function EventIdKey(r: Ref): Text {
    EVENT_ID_TAG + (Part(r.network) + Encode(r.id))
  }

  function ArrivalPrefix(network: Text): Text {
    ARRIVAL_TAG + Part(network)
  }

  /** arrivalIndexKey */
  function ArrivalKey(a: Slot): Text {
    ArrivalPrefix(a.network) + Padded(a.sequence, 20)
  }

  function SiphonKey(r: Ref): Text {
    SIPHON_TAG + (Part(r.network) + Encode(r.id))
  }

  lemma SamePrefix(p: Text, u: Text, v: Text)
    ensures p + u == p + v <==> u == v
  {
    if p + u == p + v {
      assert u == (p + u)[|p|..] && v == (p + v)[|p|..];
    }
  }

  lemma SameWidth(x: Text, u: Text, y: Text, v: Text)
    requires |x| == |y|
    ensures x + u == y + v <==> x == y && u == v
  {
    if x + u == y + v {
      assert x == (x + u)[..|x|] && y == (y + v)[..|y|];
      assert u == (x + u)[|x|..] && v == (y + v)[|y|..];
    }
  }

  /** A key part ends at the first colon behind it. */
  lemma PartIsSelfDelimiting(a: Text, u: Text, b: Text, v: Text)
    ensures Part(a) + u == Part(b) + v <==> a == b && u == v
  {
    EncodeSymbols(a);
    EncodeSymbols(b);
    hide Encode, Value6;
    if Part(a) + u == Part(b) + v {
      var t := Part(a) + u;
      assert t[|Encode(a)|] == COLON && t[|Encode(b)|] == COLON;
      assert forall i :: 0 <= i < |Encode(a)| ==> t[i] == Encode(a)[i];
      assert forall i :: 0 <= i < |Encode(b)| ==> t[i] == Encode(b)[i];
      assert |Encode(a)| == |Encode(b)|;
      SameWidth(Part(a), u, Part(b), v);
      SameWidth(Encode(a), SEPARATOR, Encode(b), SEPARATOR);
      EncodeInjective(a, b);
    }
  }

  lemma PartSelects(a: Text, b: Text, rest: Text)
    ensures Part(a) <= Part(b) + rest <==> a == b
  {
    if Part(a) <= Part(b) + rest {
      var u := (Part(b) + rest)[|Part(a)|..];
      assert Part(a) + u == Part(b) + rest;
      PartIsSelfDelimiting(a, u, b, rest);
    }
  }

  lemma FirstPartSelects(a: Text, more: Text, b: Text, rest: Text)
    ensures Part(a) + more <= Part(b) + rest ==> a == b
  {
    if Part(a) + more <= Part(b) + rest {
      var u := (Part(b) + rest)[|Part(a) + more|..];
      assert Part(a) + (more + u) == Part(b) + rest;
      PartIsSelfDelimiting(a, more + u, b, rest);
    }
  }

  lemma PrefixAfter(p: Text, x: Text, y: Text)
    ensures p + x <= p + y <==> x <= y
  {
    if p + x <= p + y {
      assert x == (p + x)[|p|..] && y == (p + y)[|p|..];
      assert x == y[..|x|];
    }
    if x <= y {
      assert p + y == (p + x) + y[|x|..];
    }
  }

  ghost predicate Printable(k: Key) {
    k.occurredAt < Count(LAYOUT)
  }

  lemma CounterFits(q: uint64)
    ensures q < Pow10(20)
  {
    assert Pow10(10) == 10_000_000_000;
    assert Pow10(20) == 10_000_000_000 * Pow10(10);
  }

  /** The events of one stream are stored in the order of their time of occurrence, and among equals of
      their counter. */
  lemma StreamKeysFollowTime(a: Key, b: Key)
    requires Printable(a) && Printable(b) && a.network == b.network && a.stream == b.stream
    requires a.occurredAt < b.occurredAt || (a.occurredAt == b.occurredAt && a.counter < b.counter)
    ensures Less(EventKey(a), EventKey(b))
  {
    hide TimeText, Part, Encode, Padded, Less, Count;
    var u, v := SEPARATOR + (Part(a.device) + Encode(a.id)), SEPARATOR + (Part(b.device) + Encode(b.id));
    TimestampsOrdered(a.occurredAt, b.occurredAt);
    CounterFits(a.counter);
    CounterFits(b.counter);
    PaddedOrder(a.counter, b.counter, 20);
    LessBlocks(Padded(a.counter, 20), u, Padded(b.counter, 20), v);
    LessAfterPrefix(SEPARATOR, Padded(a.counter, 20) + u, Padded(b.counter, 20) + v);
    LessBlocks(TimeText(a.occurredAt), SEPARATOR + (Padded(a.counter, 20) + u),
      TimeText(b.occurredAt), SEPARATOR + (Padded(b.counter, 20) + v));
    var x, y := EventKeyTail(a), EventKeyTail(b);
    LessAfterPrefix(Part(a.stream), x, y);
    LessAfterPrefix(Part(a.network), Part(a.stream) + x, Part(a.stream) + y);
    LessAfterPrefix(EVENT_TAG, Part(a.network) + (Part(a.stream) + x), Part(a.network) + (Part(a.stream) + y));
  }

  /** Two events share a primary key only if they agree in every component of it. */
  lemma EventKeyInjective(a: Key, b: Key)
    requires Printable(a) && Printable(b)
    ensures EventKey(a) == EventKey(b) <==> a == b
  {
    SamePrefix(EVENT_TAG, Part(a.network) + (Part(a.stream) + EventKeyTail(a)),
      Part(b.network) + (Part(b.stream) + EventKeyTail(b)));
    PartIsSelfDelimiting(a.network, Part(a.stream) + EventKeyTail(a), b.network, Part(b.stream) + EventKeyTail(b));
    PartIsSelfDelimiting(a.stream, EventKeyTail(a), b.stream, EventKeyTail(b));
    EventKeyTailInjective(a, b);
  }

  lemma EventKeyTailInjective(a: Key, b: Key)
    requires Printable(a) && Printable(b)
    ensures EventKeyTail(a) == EventKeyTail(b) <==>
      a.occurredAt == b.occurredAt && a.counter == b.counter && a.device == b.device && a.id == b.id
  {
    hide TimeText, Part, Encode, Padded, Count;
    var u, v := Part(a.device) + Encode(a.id), Part(b.device) + Encode(b.id);
    TimestampsOrdered(a.occurredAt, b.occurredAt);
    SameWidth(TimeText(a.occurredAt), SEPARATOR + (Padded(a.counter, 20) + (SEPARATOR + u)),
              TimeText(b.occurredAt), SEPARATOR + (Padded(b.counter, 20) + (SEPARATOR + v)));
    SamePrefix(SEPARATOR, Padded(a.counter, 20) + (SEPARATOR + u), Padded(b.counter, 20) + (SEPARATOR + v));
    SameWidth(Padded(a.counter, 20), SEPARATOR + u, Padded(b.counter, 20), SEPARATOR + v);
    CounterFits(a.counter);
    CounterFits(b.counter);
    PaddedInjective(a.counter, b.counter, 20);
    SamePrefix(SEPARATOR, u, v);
    PartIsSelfDelimiting(a.device, Encode(a.id), b.device, Encode(b.id));
    if Encode(a.id) == Encode(b.id) {
      EncodeInjective(a.id, b.id);
    }
  }

  lemma EventIdKeyInjective(a: Ref, b: Ref)
    ensures EventIdKey(a) == EventIdKey(b) <==> a == b
    ensures SiphonKey(a) == SiphonKey(b) <==> a == b
    ensures EventIdKey(a) == Ascii("event-id-v3:") + Encode(a.network) + Ascii(":") + Encode(a.id)
    ensures SiphonKey(a) == Ascii("durable-siphon-v1:") + Encode(a.network) + Ascii(":") + Encode(a.id)
  {
    RefKeyTexts(a);
    hide Part, Encode;
    SamePrefix(EVENT_ID_TAG, Part(a.network) + Encode(a.id), Part(b.network) + Encode(b.id));
    SamePrefix(SIPHON_TAG, Part(a.network) + Encode(a.id), Part(b.network) + Encode(b.id));
    PartIsSelfDelimiting(a.network, Encode(a.id), b.network, Encode(b.id));
    if Encode(a.id) == Encode(b.id) {
      EncodeInjective(a.id, b.id);
    }
  }

  lemma RefKeyTexts(r: Ref)
    ensures EventIdKey(r) == Ascii("event-id-v3:") + Encode(r.network) + Ascii(":") + Encode(r.id)
    ensures SiphonKey(r) == Ascii("durable-siphon-v1:") + Encode(r.network) + Ascii(":") + Encode(r.id)
  {
    hide Encode;
    assert Ascii(":") == SEPARATOR;
  }

  /** A scan by prefix selects exactly the events of that network, or of that stream in it. */
  lemma PrefixScansAreExact(network: Text, stream: Text, k: Key)
    ensures NetworkPrefix(network) == Ascii("event-v3:") + Encode(network) + Ascii(":")
    ensures StreamPrefix(network, stream) == NetworkPrefix(network) + Encode(stream) + Ascii(":")
    ensures NetworkPrefix(network) <= EventKey(k) <==> k.network == network
    ensures StreamPrefix(network, stream) <= EventKey(k) <==> k.network == network && k.stream == stream
  {
    PrefixTexts(network, stream);
    hide Part, EventKeyTail;
    var rest := Part(k.stream) + EventKeyTail(k);
    PrefixAfter(EVENT_TAG, Part(network), Part(k.network) + rest);
    PartSelects(network, k.network, rest);
    PrefixAfter(EVENT_TAG, Part(network) + Part(stream), Part(k.network) + rest);
    if k.network == network {
      PrefixAfter(Part(network), Part(stream), rest);
      PartSelects(stream, k.stream, EventKeyTail(k));
    } else {
      FirstPartSelects(network, Part(stream), k.network, rest);
    }
  }

  lemma PrefixTexts(network: Text, stream: Text)
    ensures NetworkPrefix(network) == Ascii("event-v3:") + Encode(network) + Ascii(":")
    ensures StreamPrefix(network, stream) == NetworkPrefix(network) + Encode(stream) + Ascii(":")
    ensures ArrivalPrefix(network) == Ascii("event-arrival-v1:") + Encode(network) + Ascii(":")
  {
    hide Encode;
    assert Ascii(":") == SEPARATOR;
  }

  /** Scans of the ID index and of the arrival index stay within their network as well. */
  lemma IndexScansAreExact(network: Text, r: Ref, a: Slot)
    ensures EVENT_ID_TAG + Part(network) <= EventIdKey(r) <==> r.network == network
    ensures ArrivalPrefix(network) == Ascii("event-arrival-v1:") + Encode(network) + Ascii(":")
    ensures ArrivalPrefix(network) <= ArrivalKey(a) <==> a.network == network
  {
    PrefixTexts(network, []);
    hide Part, Encode, Padded;
    PrefixAfter(EVENT_ID_TAG, Part(network), Part(r.network) + Encode(r.id));
    PartSelects(network, r.network, Encode(r.id));
    assert ArrivalKey(a) == ARRIVAL_TAG + (Part(a.network) + Padded(a.sequence, 20));
    PrefixAfter(ARRIVAL_TAG, Part(network), Part(a.network) + Padded(a.sequence, 20));
    PartSelects(network, a.network, Padded(a.sequence, 20));
  }

  /** arrivalSequenceFromKey */
  function SequenceFromKey(prefix: Text, key: Text): Parsed {
    if |key| != |prefix| + 20 then Invalid else ParseUint(key[|prefix|..])
  }

  /** Reading an arrival key gives back the sequence number it was written with. */
  lemma ArrivalKeyRoundTrip(a: Slot)
    ensures SequenceFromKey(ArrivalPrefix(a.network), ArrivalKey(a)) == Parsed.Value(a.sequence)
  {
    hide Part, Padded;
    CounterFits(a.sequence);
    PaddedNumber(a.sequence, 20);
    assert ArrivalKey(a)[|ArrivalPrefix(a.network)|..] == Padded(a.sequence, 20);
  }

  /** Within a network the arrival index iterates by sequence number. */
  lemma ArrivalKeysOrdered(a: Slot, b: Slot)
    requires a.network == b.network
    ensures Less(ArrivalKey(a), ArrivalKey(b)) <==> a.sequence < b.sequence
  {
    hide Part, Padded, Less;
    CounterFits(a.sequence);
    CounterFits(b.sequence);
    LessAfterPrefix(ArrivalPrefix(a.network), Padded(a.sequence, 20), Padded(b.sequence, 20));
    PaddedOrder(a.sequence, b.sequence, 20);
  }

  /** Keys of different tables never coincide, and no table's keys lie in another table's scan. */
  lemma TablesAreSeparate(k: Key, r: Ref, a: Slot)
    ensures !(EVENT_TAG <= EventIdKey(r)) && !(EVENT_TAG <= ArrivalKey(a)) && !(EVENT_TAG <= SiphonKey(r))
    ensures !(EVENT_ID_TAG <= EventKey(k)) && !(EVENT_ID_TAG <= ArrivalKey(a)) && !(EVENT_ID_TAG <= SiphonKey(r))
    ensures !(ARRIVAL_TAG <= EventKey(k)) && !(ARRIVAL_TAG <= EventIdKey(r)) && !(ARRIVAL_TAG <= SiphonKey(r))
  {
    hide Part, Padded, Encode, EventKeyTail;
    var event, id, arrival, siphon := EventKey(k), EventIdKey(r), ArrivalKey(a), SiphonKey(r);
    assert event[6] == EVENT_TAG[6] == 118 && id[6] == EVENT_ID_TAG[6] == 105 && arrival[6] == ARRIVAL_TAG[6] == 97;
    assert event[0] == id[0] == arrival[0] == 101 && siphon[0] == SIPHON_TAG[0] == 100;
  }
}
