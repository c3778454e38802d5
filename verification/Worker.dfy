/** A registry Processor on top of a durable siphon: each delivery is handed to a command, and what
    the command prints is ingested under IDs derived from the delivery. */
module Worker {
  import opened Bytes
  import opened Hlc
  import opened Digits
  import opened Store
  import opened Ingest
  import opened DaemonObject

  const NUL: byte := 0

  /** One line of a command's output. */
  datatype Line = Blank | Garbage | Output(stream: Text, payload: Payload, eventId: Text, occurredAt: Time)

  /** A Processor definition; `run` is what its command prints for the events of a delivery. */
  datatype Processor = Processor(network: Text, name: Text,
    durable: Text, allowed: set<Text>, run: seq<Event> -> seq<Line>)

  /** What deterministicOutputID feeds to its hash. */
  function OutputSource(network: Text, name: Text, delivery: Text, sequence: nat): Text {
    network + [NUL] + name + [NUL] + (delivery + ([NUL] + Decimal(sequence)))
  }

  lemma DecimalHasNoNul(n: nat)
    ensures forall c :: c in Decimal(n) ==> c != NUL
  {
    DecimalNumber(n);
  }

  /** The last NUL of a source separates the delivery from the sequence number, whatever bytes a
      delivery ID is made of. */
  lemma LastNulSeparates(d: Text, x: Text, d': Text, x': Text)
    requires (forall c :: c in x ==> c != NUL) && (forall c :: c in x' ==> c != NUL)
    requires d + ([NUL] + x) == d' + ([NUL] + x')
    ensures d == d' && x == x'
  {
    NoNulBehind(d, x);
    NoNulBehind(d', x');
    var t := d + ([NUL] + x);
    assert |d| == |d'|;
    assert d == t[..|d|] && d' == t[..|d|];
    assert x == t[|d| + 1..] && x' == t[|d| + 1..];
  }

  lemma NoNulBehind(d: Text, x: Text)
    requires forall c :: c in x ==> c != NUL
    ensures var t := d + ([NUL] + x); t[|d|] == NUL && forall j :: |d| < j < |t| ==> t[j] != NUL
  {
    var t := d + ([NUL] + x);
    forall j | |d| < j < |t| ensures t[j] != NUL {
      assert t[j] == x[j - |d| - 1];
      assert x[j - |d| - 1] in x;
    }
  }

  /** One definition never feeds the same source for two outputs. */
  lemma OutputSourceInjective(network: Text, name: Text, d: Text, i: nat, d': Text, i': nat)
    ensures OutputSource(network, name, d, i) == OutputSource(network, name, d', i') <==> d == d' && i == i'
  {
    var head := network + [NUL] + name + [NUL];
    var u, v := d + ([NUL] + Decimal(i)), d' + ([NUL] + Decimal(i'));
    if head + u == head + v {
      assert u == (head + u)[|head|..] && v == (head + v)[|head|..];
      DecimalHasNoNul(i);
      DecimalHasNoNul(i');
      LastNulSeparates(d, Decimal(i), d', Decimal(i'));
      DecimalInjective(i, i');
    }
  }

  /** The hash behind the derived IDs: collision-free, and never empty. */
  ghost predicate OutputHash(hash: Text -> Text) {
    (forall a, b :: hash(a) == hash(b) ==> a == b) && (forall a :: hash(a) != [])
  }

  /** deterministicOutputID */
  function OutputId(hash: Text -> Text, p: Processor, delivery: Text, sequence: nat): Text {
    hash(OutputSource(p.network, p.name, delivery, sequence))
  }

  function DerivedRef(hash: Text -> Text, p: Processor, delivery: Text, i: nat): Ref {
    Ref(p.network, OutputId(hash, p, delivery, i))
  }

  lemma DerivedRefInjective(hash: Text -> Text, p: Processor, d: Text, i: nat, d': Text, i': nat)
    requires OutputHash(hash)
    ensures DerivedRef(hash, p, d, i) == DerivedRef(hash, p, d', i') <==> d == d' && i == i'
  {
    OutputSourceInjective(p.network, p.name, d, i, d', i');
  }

  function RequestFor(hash: Text -> Text, p: Processor, delivery: Text, o: Line, sequence: nat): Request
    requires o.Output?
  {
    Request(p.network, o.stream, o.occurredAt, if o.eventId == []
      then OutputId(hash, p, delivery, sequence) else o.eventId, o.payload)
  }

  /** How far a delivery got: the node, how many outputs were ingested, and whether all was well. */
  datatype Attempt = Attempt(node: Node, stored: nat, ok: bool)

  /** What one more line does to an attempt. */
  function ConsumeLine(hash: Text -> Text, p: Processor, a: Attempt, delivery: Text, line: Line,
      wall: Instant): Attempt {
    if !a.ok || line.Blank? then a
    else if line.Garbage? || line.stream !in p.allowed then a.(ok := false)
    else
      match IngestPublic(a.node, RequestFor(hash, p, delivery, line, a.stored + 1), wall, [])
      case Rejected(_) => a.(ok := false)
      case Committed(node, _, _) => Attempt(node, a.stored + 1, true)
  }

  /** consumeProcessorOutput on the lines printed so far. */
  function Consume(hash: Text -> Text, p: Processor, n: Node, delivery: Text, lines: seq<Line>,
      walls: nat -> Instant): Attempt {
    if lines == [] then Attempt(n, 0, true)
    else
      var a := Consume(hash, p, n, delivery, lines[..|lines| - 1], walls);
      ConsumeLine(hash, p, a, delivery, lines[|lines| - 1], walls(|lines|))
  }

  lemma ConsumeNothing(hash: Text -> Text, p: Processor, n: Node, delivery: Text, lines: seq<Line>,
      walls: nat -> Instant)
    ensures Consume(hash, p, n, delivery, lines[..0], walls) == Attempt(n, 0, true)
  {
  }

  lemma ConsumeMore(hash: Text -> Text, p: Processor, n: Node, delivery: Text, lines: seq<Line>, walls: nat -> Instant,
      i: nat)
    requires i < |lines|
    ensures Consume(hash, p, n, delivery, lines[..i + 1], walls)
      == ConsumeLine(hash, p, Consume(hash, p, n, delivery, lines[..i], walls), delivery, lines[i], walls(i + 1))
  {
    hide ConsumeLine;
    assert lines[..i + 1][..i] == lines[..i];
  }

  lemma {:induction false} ConsumeStopped(hash: Text -> Text, p: Processor, n: Node, delivery: Text, lines: seq<Line>,
      walls: nat -> Instant, k: nat)
    requires k <= |lines| && !Consume(hash, p, n, delivery, lines[..k], walls).ok
    ensures Consume(hash, p, n, delivery, lines, walls) == Consume(hash, p, n, delivery, lines[..k], walls)
    decreases |lines|
  {
    if k < |lines| {
      assert lines[..|lines| - 1][..k] == lines[..k];
      ConsumeStopped(hash, p, n, delivery, lines[..|lines| - 1], walls, k);
    } else {
      assert lines[..k] == lines;
    }
  }

  /** The loop over a command's output: it ends at the first line that is wrong or not ingested. */
  method ConsumeProcessorOutput(d: Daemon, hash: Text -> Text, p: Processor, delivery: Text, lines: seq<Line>,
      walls: nat -> Instant)
    returns (ok: bool)
    modifies d
    ensures var a := Consume(hash, p, old(d.State()), delivery, lines, walls); d.State() == a.node && ok == a.ok
    ensures ok ==> forall i :: 0 <= i < |lines| ==>
      lines[i].Blank? || (lines[i].Output? && lines[i].stream in p.allowed)
  {
    hide Consume, IngestPublic, OutputId;
    var sequence := 0;
    var i := 0;
    ghost var n := d.State();
    ConsumeNothing(hash, p, n, delivery, lines, walls);
    while i < |lines|
      invariant 0 <= i <= |lines|
      invariant Consume(hash, p, n, delivery, lines[..i], walls) == Attempt(d.State(), sequence, true)
      invariant forall j :: 0 <= j < i ==> lines[j].Blank? || (lines[j].Output? && lines[j].stream in p.allowed)
    {
      var line := lines[i];
      ConsumeMore(hash, p, n, delivery, lines, walls, i);
      if !line.Blank? {
        if line.Garbage? || line.stream !in p.allowed {
          ConsumeStopped(hash, p, n, delivery, lines, walls, i + 1);
          return false;
        }
        var eventId := line.eventId;
        if eventId == [] {
          eventId := OutputId(hash, p, delivery, sequence + 1);
        }
        var stored := d.IngestPublic(Request(p.network, line.stream, line.occurredAt, eventId, line.payload),
          walls(i + 1), []);
        if stored.Err? {
          ConsumeStopped(hash, p, n, delivery, lines, walls, i + 1);
          return false;
        }
        sequence := sequence + 1;
      }
      i := i + 1;
    }
    assert lines[..i] == lines;
    ok := true;
  }

  /****** What an attempt leaves behind ******/

  /** The outputs among the lines. */
  function OutputsOf(lines: seq<Line>): (outs: seq<Line>)
    ensures forall o :: o in outs ==> o.Output?
  {
    if lines == [] then []
    else OutputsOf(lines[..|lines| - 1]) + if lines[|lines| - 1].Output? then [lines[|lines| - 1]] else []
  }

  /** Outputs leave the choice of their IDs to the worker. */
  ghost predicate Anonymous(outs: seq<Line>) {
    forall o :: o in outs ==> o.Output? && o.eventId == []
  }

  /** The i-th output (from 1) is stored as it was printed, and on a stream that is allowed. */
  ghost predicate StoredAs(hash: Text -> Text, p: Processor, m: map<Ref, Event>, delivery: Text, outs: seq<Line>,
      i: nat)
    requires 1 <= i <= |outs| && Anonymous(outs)
  {
    && DerivedRef(hash, p, delivery, i) in m
    && IsPrinted(p, outs[i - 1], m[DerivedRef(hash, p, delivery, i)])
  }

  /** The event has the stream and the payload of the output, and its time if it has one. */
  ghost predicate IsPrinted(p: Processor, o: Line, e: Event)
    requires o.Output?
  {
    && e.stream == o.stream && o.stream in p.allowed && e.payload == o.payload
    && (o.occurredAt > 0 ==> e.occurredAt == o.occurredAt)
  }

  /** Exactly the first k outputs of a delivery are stored. */
  ghost predicate PrefixStored(hash: Text -> Text, p: Processor, m: map<Ref, Event>, delivery: Text, outs: seq<Line>,
      k: nat) {
    && k <= |outs| && Anonymous(outs)
    && (forall i {:trigger DerivedRef(hash, p, delivery, i)} :: 1 <= i <= k ==> StoredAs(hash, p, m, delivery, outs, i))
    && (forall i: nat {:trigger DerivedRef(hash, p, delivery, i)} :: (i == 0 || i > k) ==>
      DerivedRef(hash, p, delivery, i) !in m)
  }

  /** A repetition of what is stored already changes nothing; the next output is added. */
  lemma IngestOutput(hash: Text -> Text, p: Processor, n: Node, delivery: Text, outs: seq<Line>, k: nat, i: nat,
      wall: Instant)
    requires OutputHash(hash) && ValidNode(n) && PrefixStored(hash, p, Events(n.store), delivery, outs, k)
    requires 1 <= i <= |outs| && i <= k + 1 && outs[i - 1].Output? && outs[i - 1].stream in p.allowed
    ensures var c := IngestPublic(n, RequestFor(hash, p, delivery, outs[i - 1], i), wall, []);
      c.Committed? ==>
        && ValidNode(c.node) && Extends(n.store, c.node.store) && c.node.device == n.device
        && c.node.store.siphons == n.store.siphons
        && PrefixStored(hash, p, Events(c.node.store), delivery, outs, Max(k, i))
        && (forall x :: x in Events(c.node.store) ==> x in Events(n.store) || x == DerivedRef(hash, p, delivery, i))
        && (forall x :: x in Events(n.store) ==>
          x in Events(c.node.store) && Events(c.node.store)[x] == Events(n.store)[x])
  {
    hide PrimaryKeyed, IdsIndexed, ArrivalsIndexed, ClockCovers, Extends;
    var q := RequestFor(hash, p, delivery, outs[i - 1], i);
    assert outs[i - 1] in outs;
    IngestWithOwnId(n, q, wall);
    var c := IngestPublic(n, q, wall, []);
    FindIsEvents(n.store, DerivedRef(hash, p, delivery, i));
    if c.Committed? {
      PrefixGrows(hash, p, Events(n.store), c.event, delivery, outs, k, i);
    }
  }

  /** A request that names its event does not use the random ID. */
  lemma IngestWithOwnId(n: Node, q: Request, wall: Instant)
    requires ValidNode(n) && q.eventId != []
    ensures var c := IngestPublic(n, q, wall, []); c.Committed? ==>
      && Effect(n, c) && RefOf(c.event) == Ref(q.network, q.eventId)
      && c.event.stream == q.stream && c.event.payload == q.payload
      && (q.occurredAt > 0 ==> c.event.occurredAt == q.occurredAt)
      && (!c.created ==> RefOf(c.event) in Events(n.store) && Events(n.store)[RefOf(c.event)] == c.event)
      && (forall x :: x in Events(n.store) ==>
        x in Events(c.node.store) && Events(c.node.store)[x] == Events(n.store)[x])
  {
    hide PrimaryKeyed, IdsIndexed, ArrivalsIndexed, ClockCovers, Extends;
    FindIsEvents(n.store, Ref(q.network, q.eventId));
    IngestInternalEffect(n, q, wall, q.eventId);
    assert IngestInternal(n, q, wall, []) == IngestInternal(n, q, wall, q.eventId);
  }

  lemma PrefixGrows(hash: Text -> Text, p: Processor, m: map<Ref, Event>, e: Event, delivery: Text, outs: seq<Line>,
      k: nat, i: nat)
    requires OutputHash(hash) && PrefixStored(hash, p, m, delivery, outs, k) && 1 <= i <= |outs| && i <= k + 1
    requires RefOf(e) == DerivedRef(hash, p, delivery, i) && (RefOf(e) in m ==> m[RefOf(e)] == e)
    requires IsPrinted(p, outs[i - 1], e)
    ensures PrefixStored(hash, p, m[RefOf(e) := e], delivery, outs, Max(k, i))
  {
    var m' := m[RefOf(e) := e];
    forall j | 1 <= j <= Max(k, i) ensures StoredAs(hash, p, m', delivery, outs, j) {
      DerivedRefInjective(hash, p, delivery, i, delivery, j);
      assert j != i ==> StoredAs(hash, p, m, delivery, outs, j);
    }
    forall j: nat | j == 0 || j > Max(k, i) ensures DerivedRef(hash, p, delivery, j) !in m' {
      DerivedRefInjective(hash, p, delivery, i, delivery, j);
    }
  }

  lemma {:induction false} OutputsOfPrefix(lines: seq<Line>, k: nat)
    requires k <= |lines|
    ensures OutputsOf(lines[..k]) <= OutputsOf(lines)
    decreases |lines|
  {
    if k < |lines| {
      var front := lines[..|lines| - 1];
      assert front[..k] == lines[..k];
      OutputsOfPrefix(front, k);
      assert OutputsOf(front) <= OutputsOf(lines);
    } else {
      assert lines[..k] == lines;
    }
  }

  /** An attempt that got through some of the lines leaves a longer prefix of the outputs stored, and
      nothing else; one that got through all of them leaves all. */
  lemma {:induction false} AttemptStoresPrefix(hash: Text -> Text, p: Processor, n: Node, delivery: Text,
      lines: seq<Line>, outs: seq<Line>, walls: nat -> Instant, k: nat)
    requires OutputHash(hash) && ValidNode(n) && OutputsOf(lines) <= outs
    requires PrefixStored(hash, p, Events(n.store), delivery, outs, k)
    ensures var a := Consume(hash, p, n, delivery, lines, walls);
      && ValidNode(a.node) && Extends(n.store, a.node.store)
        && a.node.device == n.device && a.node.store.siphons == n.store.siphons
      && a.stored <= |OutputsOf(lines)| && (a.ok ==> a.stored == |OutputsOf(lines)|)
      && PrefixStored(hash, p, Events(a.node.store), delivery, outs, Max(k, a.stored))
      && (forall x :: x in Events(a.node.store) ==>
        x in Events(n.store) || exists i :: 1 <= i <= a.stored && x == DerivedRef(hash, p, delivery, i))
    decreases |lines|
  {
    hide PrimaryKeyed, IdsIndexed, ArrivalsIndexed, ClockCovers, PrefixStored, OutputHash;
    ExtendsReflexive(n.store);
    hide Extends;
    if lines != [] {
      var front, line := lines[..|lines| - 1], lines[|lines| - 1];
      AttemptStoresPrefix(hash, p, n, delivery, front, outs, walls, k);
      var a := Consume(hash, p, n, delivery, front, walls);
      if a.ok && line.Output? && line.stream in p.allowed {
        assert outs[a.stored] == line;
        IngestOutput(hash, p, a.node, delivery, outs, Max(k, a.stored), a.stored + 1, walls(|lines|));
        var c := IngestPublic(a.node, RequestFor(hash, p, delivery, line, a.stored + 1), walls(|lines|), []);
        if c.Committed? {
          ExtendsTransitive(n.store, a.node.store, c.node.store);
        }
      }
    }
  }

  /****** What is printed, line by line ******/

  /** A line that is no event, or is for a stream that is not allowed, fails the attempt, and nothing
      behind it is looked at: the node is what the lines before it have made of it. */
  lemma WrongLineStops(hash: Text -> Text, p: Processor, n: Node, delivery: Text, lines: seq<Line>,
      walls: nat -> Instant, i: nat)
    requires i < |lines| && !lines[i].Blank? && (lines[i].Garbage? || lines[i].stream !in p.allowed)
    ensures var a, before :=
      Consume(hash, p, n, delivery, lines, walls), Consume(hash, p, n, delivery, lines[..i], walls);
      !a.ok && a.node == before.node && a.stored == before.stored
  {
    hide Consume, IngestPublic;
    if Consume(hash, p, n, delivery, lines[..i], walls).ok {
      ConsumeMore(hash, p, n, delivery, lines, walls, i);
      ConsumeStopped(hash, p, n, delivery, lines, walls, i + 1);
    } else {
      ConsumeStopped(hash, p, n, delivery, lines, walls, i);
    }
  }

  /** The reference under which an output is to be stored, if it is the k-th. */
  ghost function OutputRef(hash: Text -> Text, p: Processor, delivery: Text, o: Line, k: nat): Ref
    requires o.Output?
  {
    Ref(p.network, if o.eventId != [] then o.eventId
      else hash(p.network + [0] + p.name + [0] + delivery + [0] + Decimal(k)))
  }

  lemma SourceIsText(p: Processor, delivery: Text, k: nat)
    ensures OutputSource(p.network, p.name, delivery, k)
      == p.network + [0] + p.name + [0] + delivery + [0] + Decimal(k)
  {
    var head := p.network + [NUL] + p.name + [NUL];
    assert head + (delivery + ([NUL] + Decimal(k))) == head + delivery + [NUL] + Decimal(k);
  }

  /** After any attempt, whatever was stored before: an attempt that is well has stored every line that is
      not blank, on an allowed stream, with the payload and the time that were printed, under the ID that
      was printed or else the one derived from the delivery and the number of the output. */
  lemma {:induction false} AttemptStoresLines(hash: Text -> Text, p: Processor, n: Node, delivery: Text,
      lines: seq<Line>, walls: nat -> Instant, i: nat)
    requires OutputHash(hash) && ValidNode(n) && i < |lines| && !lines[i].Blank?
    requires Consume(hash, p, n, delivery, lines, walls).ok
    ensures lines[i].Output? && lines[i].stream in p.allowed
    ensures var m, o := Events(Consume(hash, p, n, delivery, lines, walls).node.store), lines[i];
      var r := OutputRef(hash, p, delivery, o, |OutputsOf(lines[..i + 1])|);
      && r in m && m[r].stream == o.stream && m[r].payload == o.payload
      && (o.occurredAt > 0 ==> m[r].occurredAt == o.occurredAt)
    decreases |lines|
  {
    hide PrimaryKeyed, IdsIndexed, ArrivalsIndexed, ClockCovers, OutputHash, Effect, IngestPublic;
    var front, line := lines[..|lines| - 1], lines[|lines| - 1];
    var a := Consume(hash, p, n, delivery, front, walls);
    LinesKeepNode(hash, p, n, delivery, front, walls);
    if i < |front| {
      AttemptStoresLines(hash, p, n, delivery, front, walls, i);
      assert front[..i + 1] == lines[..i + 1];
      if line.Output? {
        LineIsIngested(hash, p, a, delivery, line, walls(|lines|));
      }
    } else {
      assert lines[..i + 1] == lines;
      LineIsIngested(hash, p, a, delivery, line, walls(|lines|));
    }
  }

  /** What one output adds to an attempt that was well: the event it asks for, and nothing else. */
  lemma LineIsIngested(hash: Text -> Text, p: Processor, a: Attempt, delivery: Text, line: Line, wall: Instant)
    requires OutputHash(hash) && ValidNode(a.node) && a.ok && line.Output?
    ensures var b := ConsumeLine(hash, p, a, delivery, line, wall);
      var r := OutputRef(hash, p, delivery, line, a.stored + 1);
      && ValidNode(b.node) && (b.ok ==> b.stored == a.stored + 1 && line.stream in p.allowed)
      && (forall x :: x in Events(a.node.store) ==>
            x in Events(b.node.store) && Events(b.node.store)[x] == Events(a.node.store)[x])
      && (forall x :: x in Events(b.node.store) && x !in Events(a.node.store) ==> b.ok && x == r)
      && (b.ok ==>
            && r in Events(b.node.store)
            && var e := Events(b.node.store)[r];
               && e.stream == line.stream && e.payload == line.payload
               && (line.occurredAt > 0 ==> e.occurredAt == line.occurredAt))
  {
    hide PrimaryKeyed, IdsIndexed, ArrivalsIndexed, ClockCovers, Extends;
    SourceIsText(p, delivery, a.stored + 1);
    var q := RequestFor(hash, p, delivery, line, a.stored + 1);
    if line.stream in p.allowed {
      IngestWithOwnId(a.node, q, wall);
    }
  }

  lemma {:induction false} LinesKeepNode(hash: Text -> Text, p: Processor, n: Node, delivery: Text, lines: seq<Line>,
      walls: nat -> Instant)
    requires OutputHash(hash) && ValidNode(n)
    ensures var a := Consume(hash, p, n, delivery, lines, walls);
      && ValidNode(a.node) && (a.ok ==> a.stored == |OutputsOf(lines)|)
      && (forall x :: x in Events(n.store) ==>
            x in Events(a.node.store) && Events(a.node.store)[x] == Events(n.store)[x])
    decreases |lines|
  {
    hide PrimaryKeyed, IdsIndexed, ArrivalsIndexed, ClockCovers, OutputHash, IngestPublic, Events;
    if lines != [] {
      var front, line := lines[..|lines| - 1], lines[|lines| - 1];
      LinesKeepNode(hash, p, n, delivery, front, walls);
      var a := Consume(hash, p, n, delivery, front, walls);
      if a.ok && line.Output? {
        LineIsIngested(hash, p, a, delivery, line, walls(|lines|));
      }
    }
  }

  /** And after any attempt, well or not, every event that was not there before was printed: it has the
      stream, which is allowed, the payload, the time and the ID of one of the lines. */
  lemma {:induction false} AttemptAddsLines(hash: Text -> Text, p: Processor, n: Node, delivery: Text,
      lines: seq<Line>, walls: nat -> Instant, x: Ref)
    returns (i: nat)
    requires OutputHash(hash) && ValidNode(n)
    requires x in Events(Consume(hash, p, n, delivery, lines, walls).node.store) && x !in Events(n.store)
    ensures i < |lines| && lines[i].Output? && lines[i].stream in p.allowed
    ensures var e, o := Events(Consume(hash, p, n, delivery, lines, walls).node.store)[x], lines[i];
      && e.stream == o.stream && e.payload == o.payload && (o.occurredAt > 0 ==> e.occurredAt == o.occurredAt)
      && x == OutputRef(hash, p, delivery, o, |OutputsOf(lines[..i + 1])|)
    decreases |lines|
  {
    hide PrimaryKeyed, IdsIndexed, ArrivalsIndexed, ClockCovers, OutputHash, IngestPublic, Events, OutputRef;
    if lines != [] {
      var front, line := lines[..|lines| - 1], lines[|lines| - 1];
      var a := Consume(hash, p, n, delivery, front, walls);
      LinesKeepNode(hash, p, n, delivery, front, walls);
      if a.ok && line.Output? {
        LineIsIngested(hash, p, a, delivery, line, walls(|lines|));
      }
      if x in Events(a.node.store) {
        i := AttemptAddsLines(hash, p, n, delivery, front, walls, x);
        assert lines[..i + 1] == front[..i + 1] && lines[i] == front[i];
      } else {
        i := |front|;
        assert lines[..|lines|] == lines;
      }
    }
  }
}
