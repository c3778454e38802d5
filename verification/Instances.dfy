/** The hypotheses about hash functions can be met: for every finite set of envelopes there are
    collision-free hashes that digest it, and all copies its resolutions call for, to 32 bytes each. */
module Instances {
  import opened Bytes
  import opened Finite
  import opened Hlc
  import opened KeyCodec
  import opened Store
  import opened Replication
  import opened Replica
  import opened Convergence
  import opened Inventory
  import opened Worker

  /****** Texts that determine their parts ******/

  function Ones(n: nat): (t: Text)
    ensures |t| == n
  {
    seq(n, _ => 1)
  }

  /** A text behind its length in unary. */
  function Framed(t: Text): Text {
    Ones(|t|) + [0] + t
  }

  lemma FramedBytes(t: Text, rest: Text)
    ensures var s := Framed(t) + rest;
      && s[|t|] == 0 && (forall k :: 0 <= k < |t| ==> s[k] == 1)
      && s[|t| + 1..][..|t|] == t && s[|t| + 1 + |t|..] == rest
  {
  }

  lemma FramedInjective(a: Text, b: Text, x: Text, y: Text)
    requires Framed(a) + x == Framed(b) + y
    ensures a == b && x == y
  {
    FramedBytes(a, x);
    FramedBytes(b, y);
    hide Framed;
    assert |a| == |b|;
  }

  function Join(parts: seq<Text>): Text {
    if parts == [] then [] else Framed(parts[0]) + Join(parts[1..])
  }

  lemma {:induction false} JoinInjective(ps: seq<Text>, qs: seq<Text>)
    requires Join(ps) == Join(qs)
    ensures ps == qs
  {
    if ps != [] && qs != [] {
      FramedInjective(ps[0], qs[0], Join(ps[1..]), Join(qs[1..]));
      JoinInjective(ps[1..], qs[1..]);
      assert ps == [ps[0]] + ps[1..] && qs == [qs[0]] + qs[1..];
    }
  }

  lemma {:induction false} JoinIsLonger(ps: seq<Text>, i: nat)
    requires i < |ps|
    ensures |ps[i]| < |Join(ps)|
  {
    if i > 0 {
      JoinIsLonger(ps[1..], i - 1);
    }
  }

  function PayloadParts(p: Payload): seq<Text> {
    match p
    case Json(text) => [text]
    case Resolution(version, eventId, strategy) =>
      [eventId, strategy, Ones(if version >= 0 then 2 * version else -2 * version - 1)]
  }

  /** All fields of an envelope, as texts. */
  function Fields(e: Event): seq<Text> {
    PayloadParts(e.payload)
      + [e.id, e.network, e.stream, e.device]
      + [Ones(e.occurredAt), Ones(e.insertedAt), Ones(e.propagatedAt), Ones(e.counter)]
  }

  lemma FieldsInjective(e: Event, f: Event)
    requires Fields(e) == Fields(f)
    ensures e == f
  {
    var p, q := PayloadParts(e.payload), PayloadParts(f.payload);
    var s, t := Fields(e), Fields(f);
    assert |s| == |p| + 8 && |t| == |q| + 8;
    assert p == s[..|p|] && q == t[..|q|];
    PayloadPartsInjective(e.payload, f.payload);
    assert [s[|p|], s[|p| + 1], s[|p| + 2], s[|p| + 3]] == [t[|p|], t[|p| + 1], t[|p| + 2], t[|p| + 3]];
    assert |s[|p| + 4]| == |t[|p| + 4]| && |s[|p| + 5]| == |t[|p| + 5]|;
    assert |s[|p| + 6]| == |t[|p| + 6]| && |s[|p| + 7]| == |t[|p| + 7]|;
  }

  lemma PayloadPartsInjective(p: Payload, q: Payload)
    requires PayloadParts(p) == PayloadParts(q)
    ensures p == q
  {
    var s, t := PayloadParts(p), PayloadParts(q);
    assert |s| == |t|;
    if p.Resolution? {
      assert s[0] == t[0] && s[1] == t[1] && |s[2]| == |t[2]|;
    } else {
      assert s[0] == t[0];
    }
  }

  /****** Hashes ******/

  /** n in base 256, most significant byte first. */
  function BigEndian(n: nat, width: nat): (t: Text)
    ensures |t| == width
  {
    if width == 0 then [] else BigEndian(n / 256, width - 1) + [n % 256]
  }

  function Power(width: nat): (p: nat)
    ensures p > 0
  {
    if width == 0 then 1 else 256 * Power(width - 1)
  }

  lemma {:induction false} BigEndianInjective(a: nat, b: nat, width: nat)
    requires a < Power(width) && b < Power(width) && BigEndian(a, width) == BigEndian(b, width)
    ensures a == b
    decreases width
  {
    if width > 0 {
      var s, t := BigEndian(a, width), BigEndian(b, width);
      assert s[..width - 1] == BigEndian(a / 256, width - 1) && s[width - 1] == a % 256;
      assert t[..width - 1] == BigEndian(b / 256, width - 1) && t[width - 1] == b % 256;
      BigEndianInjective(a / 256, b / 256, width - 1);
    }
  }

  /** A digest: 32 bytes for the numbered envelopes, all fields for any other. */
  function Digest(numbers: map<Event, nat>, e: Event): Text {
    if e in numbers then Encode(BigEndian(numbers[e], 32)) else [1] + Join(Fields(e))
  }

  /** A recovered ID begins with a zero byte and is longer than `pad` bytes. */
  function RecoveredText(pad: nat, network: Text, id: Text, digest: Text): Text {
    [0] + Ones(pad) + Join([network, id, digest])
  }

  ghost predicate Numbered(numbers: map<Event, nat>) {
    && (forall e :: e in numbers ==> numbers[e] < Power(32))
    && (forall e, f :: e in numbers && f in numbers && numbers[e] == numbers[f] ==> e == f)
  }

  function TargetLength(e: Event): nat {
    if e.payload.Resolution? then |e.payload.eventId| else 0
  }

  ghost predicate Pads(pad: nat, events: set<Event>) {
    forall e :: e in events ==> TargetLength(e) <= pad
  }

  function HashesFor(numbers: map<Event, nat>, pad: nat): Hashes {
    Hashes(e => Digest(numbers, e), (network, id, digest) => RecoveredText(pad, network, id, digest))
  }

  lemma DigestInjective(numbers: map<Event, nat>, e: Event, f: Event)
    requires Numbered(numbers) && Digest(numbers, e) == Digest(numbers, f)
    ensures e == f
  {
    hide Encode, BigEndian, Fields, Join, Power;
    if e in numbers && f in numbers {
      EncodeInjective(BigEndian(numbers[e], 32), BigEndian(numbers[f], 32));
      BigEndianInjective(numbers[e], numbers[f], 32);
    } else if e !in numbers && f !in numbers {
      assert ([1] + Join(Fields(e)))[1..] == Join(Fields(e)) && ([1] + Join(Fields(f)))[1..] == Join(Fields(f));
      JoinInjective(Fields(e), Fields(f));
      FieldsInjective(e, f);
    } else {
      EncodeStart(BigEndian(numbers[if e in numbers then e else f], 32));
    }
  }

  lemma EncodeStart(t: Text)
    requires |t| >= 3
    ensures |Encode(t)| > 0 && Encode(t)[0] > 1
  {
  }

  lemma RecoveredInjective(pad: nat, n: Text, i: Text, d: Text, n': Text, i': Text, d': Text)
    requires RecoveredText(pad, n, i, d) == RecoveredText(pad, n', i', d')
    ensures n == n' && i == i' && d == d'
  {
    var s, t := RecoveredText(pad, n, i, d), RecoveredText(pad, n', i', d');
    assert s[pad + 1..] == Join([n, i, d]) && t[pad + 1..] == Join([n', i', d']);
    JoinInjective([n, i, d], [n', i', d']);
    assert [n, i, d][0] == [n', i', d'][0] && [n, i, d][1] == [n', i', d'][1] && [n, i, d][2] == [n', i', d'][2];
  }

  /** A resolution's target is shorter than the ID recovered for the resolution. */
  lemma TargetIsShorter(numbers: map<Event, nat>, pad: nat, e: Event)
    requires Pads(pad, numbers.Keys) && e.payload.Resolution?
    ensures |e.payload.eventId| < |RecoveredText(pad, e.network, e.id, Digest(numbers, e))|
  {
    if e !in numbers {
      JoinIsLonger(Fields(e), 0);
      assert Fields(e)[0] == e.payload.eventId;
      JoinIsLonger([e.network, e.id, Digest(numbers, e)], 2);
    }
  }

  lemma HashesAreCollisionFree(numbers: map<Event, nat>, pad: nat)
    requires Numbered(numbers) && Pads(pad, numbers.Keys)
    ensures CollisionFree(HashesFor(numbers, pad))
    ensures forall r: Ref :: r.id == [] || r.id[0] != 0 ==> !IsCopyRef(HashesFor(numbers, pad), r)
    ensures forall e :: e in numbers ==> IsDigest(HashesFor(numbers, pad).digest(e))
  {
    var h := HashesFor(numbers, pad);
    hide Numbered, Digest, RecoveredText;
    forall e, f | h.digest(e) == h.digest(f) ensures e == f {
      DigestInjective(numbers, e, f);
    }
    forall n, i, d, n', i', d' | h.recoveredId(n, i, d) == h.recoveredId(n', i', d')
      ensures n == n' && i == i' && d == d'
    {
      RecoveredInjective(pad, n, i, d, n', i', d');
    }
    forall n, i, d ensures h.recoveredId(n, i, d) != [] && h.recoveredId(n, i, d)[0] == 0 {
      RecoveredStart(pad, n, i, d);
    }
    forall e | Parse(e).Resolves? ensures Parse(Recover(h, e)).Resolves? {
      TargetIsShorter(numbers, pad, e);
    }
    forall e | e in numbers ensures IsDigest(h.digest(e)) {
      NumberedDigest(numbers, e);
    }
  }

  lemma RecoveredStart(pad: nat, n: Text, i: Text, d: Text)
    ensures RecoveredText(pad, n, i, d) != [] && RecoveredText(pad, n, i, d)[0] == 0
  {
  }

  lemma NumberedDigest(numbers: map<Event, nat>, e: Event)
    requires e in numbers
    ensures IsDigest(Digest(numbers, e))
  {
    EncodeRoundTrip(BigEndian(numbers[e], 32));
  }

  /****** For every finite set of envelopes ******/

  lemma {:induction false} NumbersExist(s: set<Event>, first: nat) returns (numbers: map<Event, nat>)
    ensures numbers.Keys == s
    ensures forall e :: e in s ==> first <= numbers[e] < first + |s|
    ensures forall e, f :: e in s && f in s && numbers[e] == numbers[f] ==> e == f
    decreases s
  {
    numbers := map[];
    if s != {} {
      var e :| e in s;
      var rest := NumbersExist(s - {e}, first + 1);
      numbers := rest[e := first];
    }
  }

  lemma {:induction false} PadExists(s: set<Event>) returns (pad: nat)
    ensures Pads(pad, s)
    decreases s
  {
    pad := 0;
    if s != {} {
      var e :| e in s;
      pad := PadExists(s - {e});
      pad := Max(pad, TargetLength(e));
    }
  }

  /** Whatever finite set of envelopes a mesh holds, some hashes meet every hypothesis about hashes on
      all of it: no collisions, 32-byte digests of the envelopes and of every copy their resolutions
      call for, and recovered IDs apart from all IDs that begin with another byte than zero. */
  lemma HypothesesCanBeMet(held: set<Event>) returns (h: Hashes)
    requires 2 * |held| <= Power(32)
    ensures CollisionFree(h)
    ensures forall e :: e in Completion(h, held) ==> IsDigest(h.digest(e))
    ensures forall r: Ref :: r.id == [] || r.id[0] != 0 ==> !IsCopyRef(h, r)
  {
    hide Power, Encode, BigEndian, Join, Fields, IsDigest, Digest, RecoveredText, Numbered;
    var first := NumbersExist(held, 0);
    var pad := PadExists(held);
    var copies := set e | e in held :: Recover(HashesFor(first, pad), e);
    var second := NumbersExist(copies - held, |held|);
    ImageIsSmaller(held, copies, e => Recover(HashesFor(first, pad), e));
    SubsetIsSmaller(copies - held, copies);
    var numbers := first + second;
    JoinedNumbers(held, first, second, numbers);
    assert Pads(pad, numbers.Keys) by {
      CopiesArePadded(held, first, pad);
    }
    h := HashesFor(numbers, pad);
    HashesAreCollisionFree(numbers, pad);
    CompletionIsNumbered(held, first, numbers, pad);
  }

  lemma JoinedNumbers(held: set<Event>, first: map<Event, nat>, second: map<Event, nat>, numbers: map<Event, nat>)
    requires first.Keys == held && second.Keys !! held && numbers == first + second
    requires |held| + |second| <= Power(32)
    requires forall e :: e in first ==> first[e] < |held|
    requires forall e :: e in second ==> |held| <= second[e] < |held| + |second|
    requires forall e, f :: e in first && f in first && first[e] == first[f] ==> e == f
    requires forall e, f :: e in second && f in second && second[e] == second[f] ==> e == f
    ensures Numbered(numbers)
  {
    hide Power;
  }

  lemma CopiesArePadded(held: set<Event>, first: map<Event, nat>, pad: nat)
    requires Pads(pad, held)
    ensures forall e :: e in held ==> TargetLength(Recover(HashesFor(first, pad), e)) <= pad
  {
  }

  lemma RecoveredFor(numbers: map<Event, nat>, pad: nat, e: Event)
    ensures Recover(HashesFor(numbers, pad), e) == e.(id := RecoveredText(pad, e.network, e.id, Digest(numbers, e)))
  {
    hide Digest, RecoveredText;
  }

  lemma CompletionIsNumbered(held: set<Event>, first: map<Event, nat>, numbers: map<Event, nat>, pad: nat)
    requires first.Keys == held && forall e :: e in held ==> e in numbers && numbers[e] == first[e]
    requires forall e :: e in held ==> Recover(HashesFor(first, pad), e) in numbers
    ensures forall e :: e in Completion(HashesFor(numbers, pad), held) ==> e in numbers
  {
    hide Encode, BigEndian, Join, Fields, RecoveredText;
    var h := HashesFor(numbers, pad);
    forall e | e in Completion(h, held) ensures e in numbers {
      if e !in held {
        var f :| f in held && e == Recover(h, f);
        assert Digest(numbers, f) == Digest(first, f);
        RecoveredFor(numbers, pad, f);
        RecoveredFor(first, pad, f);
      }
    }
  }

  /** The same for the hash behind derived output IDs. */
  lemma OutputHashCanBeMet() returns (hash: Text -> Text)
    ensures OutputHash(hash)
  {
    hash := t => [0] + t;
    forall a, b | hash(a) == hash(b) ensures a == b {
      assert a == ([0] + a)[1..] && b == ([0] + b)[1..];
    }
  }
}
