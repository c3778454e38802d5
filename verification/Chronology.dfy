/** The order in which events are listed: a textual key. */
module Chronology {
  import opened Bytes
  import opened Digits
  import opened Timestamps
  import opened Keys
  import opened Store

  /** chronologicalKey: unlike the storage keys it holds its last three parts verbatim. */
  function ChronologicalKey(e: Event): Text {
    TimeText(e.occurredAt)
      + (SEPARATOR + (TimeText(e.insertedAt) + (SEPARATOR + (Padded(e.counter, 20) + (SEPARATOR + Names(e))))))
  }

  function Names(e: Event): Text {
    e.device + (SEPARATOR + (e.stream + (SEPARATOR + e.id)))
  }

  /** The times of an event are times that the canonical layout can print. */
  ghost predicate Timely(e: Event) {
    e.occurredAt < Count(LAYOUT) && e.insertedAt < Count(LAYOUT)
  }

  /** Keys compare as the time of occurrence, then the time of insertion, then the counter do, and only
      then as the text "device:stream:id". */
  lemma KeyOrderIsTimeOrder(e: Event, f: Event)
    requires Timely(e) && Timely(f)
    ensures Less(ChronologicalKey(e), ChronologicalKey(f)) <==>
      || e.occurredAt < f.occurredAt
      || (e.occurredAt == f.occurredAt && e.insertedAt < f.insertedAt)
      || (e.occurredAt == f.occurredAt && e.insertedAt == f.insertedAt && e.counter < f.counter)
      || (e.occurredAt == f.occurredAt && e.insertedAt == f.insertedAt && e.counter == f.counter
          && Less(e.device + Ascii(":") + e.stream + Ascii(":") + e.id,
                  f.device + Ascii(":") + f.stream + Ascii(":") + f.id))
  {
    hide TimeText, Padded, Count, Less;
    NamesAreText(e);
    NamesAreText(f);
    hide Names;
    TimestampsOrdered(e.occurredAt, f.occurredAt);
    TimestampsOrdered(e.insertedAt, f.insertedAt);
    CounterFits(e.counter);
    CounterFits(f.counter);
    PaddedOrder(e.counter, f.counter, 20);
    PaddedInjective(e.counter, f.counter, 20);
    var n, o := SEPARATOR + Names(e), SEPARATOR + Names(f);
    var u, v := SEPARATOR + (Padded(e.counter, 20) + n), SEPARATOR + (Padded(f.counter, 20) + o);
    LessBlocks(TimeText(e.occurredAt), SEPARATOR + (TimeText(e.insertedAt) + u),
      TimeText(f.occurredAt), SEPARATOR + (TimeText(f.insertedAt) + v));
    LessAfterPrefix(SEPARATOR, TimeText(e.insertedAt) + u, TimeText(f.insertedAt) + v);
    LessBlocks(TimeText(e.insertedAt), u, TimeText(f.insertedAt), v);
    LessAfterPrefix(SEPARATOR, Padded(e.counter, 20) + n, Padded(f.counter, 20) + o);
    LessBlocks(Padded(e.counter, 20), n, Padded(f.counter, 20), o);
    LessAfterPrefix(SEPARATOR, Names(e), Names(f));
  }

  lemma NamesAreText(e: Event)
    ensures Names(e) == e.device + Ascii(":") + e.stream + Ascii(":") + e.id
  {
    assert Ascii(":") == SEPARATOR;
  }
}
