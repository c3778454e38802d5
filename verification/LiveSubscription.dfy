/** Live subscriptions of the Python client: dispatch, early events, queues, and how iteration ends. */
module LiveSubscription {
  import opened Wrappers
  import opened Bytes

  /** An event of a frame; `wellFormed` says whether event_from_data accepts it. */
  datatype Message = Message(body: Text, wellFormed: bool)

  datatype Reason = Backpressure | ConnectionLost | BadEvent | ClientClosed

  datatype Item = Live(message: Message) | End | Failed(reason: Reason)

  /** One Subscription object; `closing` while aclose has begun and not finished. */
  datatype Sub = Sub(queue: seq<Item>, capacity: nat, closed: bool, closing: bool, terminal: bool)

  datatype Turn = Blocked | Got(message: Message) | Raised(reason: Reason) | Stop

  /** Subscription._receive */
  function Received(s: Sub, item: Item): Sub {
    if s.closed then s
    else if !item.Live? then s.(closed := true, queue := [item])
    else if !item.message.wellFormed then s.(closed := true, queue := [Failed(BadEvent)])
    else if |s.queue| >= s.capacity then s.(closed := true, queue := [Failed(Backpressure)])
    else s.(queue := s.queue + [item])
  }

  function Lives(ms: seq<Message>): (items: seq<Item>)
    ensures |items| == |ms|
  {
    seq(|ms|, i requires 0 <= i < |ms| => Live(ms[i]))
  }

  /** Iteration has ended, or one terminal item is all that is left of it. */
  ghost predicate Ended(s: Sub) {
    s.closed && !s.closing && if s.terminal then s.queue == [] else |s.queue| == 1 && !s.queue[0].Live?
  }

  /** The queue continues what was delivered, without a gap. */
  ghost predicate Continues(s: Sub, sent: seq<Message>, delivered: seq<Message>) {
    |delivered| + |s.queue| <= |sent| && s.queue == Lives(sent[|delivered|..|delivered| + |s.queue|])
  }

  /** What was delivered is a prefix of what was sent; an open subscription has all the rest in its
      queue, and one that is not open any more ends. */
  ghost predicate Sound(s: Sub, sent: seq<Message>, delivered: seq<Message>) {
    && 0 < s.capacity && |s.queue| <= s.capacity && delivered <= sent
    && (!s.closed ==> !s.terminal && !s.closing && Continues(s, sent, delivered) && |delivered| + |s.queue| == |sent|)
    && (s.closed ==> if s.closing then !s.terminal && Continues(s, sent, delivered) else Ended(s))
  }

  /** Receiving one more sent event keeps a subscription sound, whatever becomes of it. */
  lemma ReceivedSound(s: Sub, sent: seq<Message>, delivered: seq<Message>, m: Message)
    requires Sound(s, sent, delivered)
    ensures Sound(Received(s, Live(m)), sent + [m], delivered)
    ensures s.closed ==> Received(s, Live(m)) == s
  {
    var all := sent + [m];
    if !s.closed {
      assert all[|delivered|..|all|] == sent[|delivered|..|sent|] + [m];
    } else if s.closing {
      assert all[|delivered|..|delivered| + |s.queue|] == sent[|delivered|..|delivered| + |s.queue|];
    }
  }

  function Get<T>(m: map<Text, seq<T>>, id: Text): seq<T> {
    if id in m then m[id] else []
  }

  /** All that a client knows of one subscription: the object, once its consumer has entered it; whether
      its handler is registered; the early events, whether some were lost, and whether events are
      ignored. Beside it stand what the daemon has sent and what the consumer has got. */
  datatype View = View(
    sub: Option<Sub>,
    handled: bool,
    early: seq<Message>,
    lost: bool,
    ignored: bool,
    sent: seq<Message>,
    delivered: seq<Message>)

  function Unregistered(v: View): View {
    v.(handled := false, early := [], lost := false, ignored := true)
  }

  /** The handler is called; a full queue makes it unregister itself. */
  function Handled(v: View, item: Item): (next: View)
    ensures next.sent == v.sent && next.delivered == v.delivered
  {
    match v.sub
    case None => v
    case Some(s) =>
      var next := v.(sub := Some(Received(s, item)));
      var full := !s.closed && item.Live? && item.message.wellFormed && |s.queue| >= s.capacity;
      if full then Unregistered(next) else next
  }

  /** A dispatched event goes to its handler, nowhere if the subscription has ended, and else to the
      early events, of which at most `limit` are kept. */
  function Dispatched(v: View, m: Message, limit: nat): View {
    var next :=
      if v.handled then Handled(v, Live(m))
      else if v.ignored then v
      else if |v.early| >= limit then v.(lost := true)
      else v.(early := v.early + [m]);
    next.(sent := v.sent + [m])
  }

  function Replayed(v: View, queued: seq<Message>): View {
    if queued == [] then v
    else Handled(Replayed(v, queued[..|queued| - 1]), Live(queued[|queued| - 1]))
  }

  function Entered(v: View, capacity: nat): View {
    var s := Sub([], capacity, false, false, false);
    v.(sub := Some(s), handled := true, early := [], lost := false, ignored := false)
  }

  function Registered(v: View, capacity: nat): View {
    var next := Replayed(Entered(v, capacity), v.early);
    if v.lost then Handled(next, Failed(Backpressure)) else next
  }

  /** The connection has ended: a registered handler is told, and all bookkeeping is dropped. */
  function Told(v: View, reason: Reason): View {
    var sub := if v.handled && v.sub.Some? then Some(Received(v.sub.value, Failed(reason))) else v.sub;
    v.(sub := sub, handled := false, early := [], lost := false, ignored := false)
  }

  /** A subscription that has not registered yet: its first events are kept, and it is known if
      there were more. */
  ghost predicate Early(v: View, limit: nat) {
    && v.early <= v.sent
    && |v.early| == (if |v.sent| <= limit then |v.sent| else limit)
    && (v.lost <==> |v.sent| > limit)
    && !v.ignored
  }

  /** Registered after the connection had gone, and never told. */
  ghost predicate Stranded(v: View) {
    && v.sub.Some? && v.handled && v.delivered == []
    && v.sub.value == Sub([], v.sub.value.capacity, false, false, false) && v.sub.value.capacity > 0
  }

  /** What holds of a subscription at all times; `stale` says that its connection is gone. */
  ghost predicate Consistent(v: View, stale: bool, limit: nat) {
    match v.sub
    case None =>
      !v.handled && v.delivered == [] && if stale then v.early == [] && !v.lost else Early(v, limit)
    case Some(s) =>
      if stale then Stranded(v) || (Sound(s, v.sent, v.delivered) && s.closed)
      else Sound(s, v.sent, v.delivered) && (v.handled || (v.ignored && s.closed))
  }

  /****** The views keep being consistent ******/

  lemma HandledConsistent(v: View, m: Message, limit: nat)
    requires Consistent(v, false, limit) && v.sub.Some?
    ensures var next := if v.handled then Handled(v, Live(m)) else v;
      Consistent(next.(sent := v.sent + [m]), false, limit)
  {
    ReceivedSound(v.sub.value, v.sent, v.delivered, m);
  }

  lemma DispatchedConsistent(v: View, m: Message, limit: nat)
    requires Consistent(v, false, limit)
    ensures Consistent(Dispatched(v, m, limit), false, limit)
  {
    if v.sub.Some? {
      HandledConsistent(v, m, limit);
    }
  }

  /** What becomes of one more sent event. Before the registration it is kept if it is among the first
      `limit`, and otherwise its loss is noted. Afterwards an open subscription takes it, unless it is
      malformed or as many events as the capacity are waiting: then this is the end. A subscription that
      is not open any more does not take it. */
  lemma DispatchDecides(v: View, m: Message, limit: nat)
    requires Consistent(v, false, limit)
    ensures var next := Dispatched(v, m, limit);
      && next.sent == v.sent + [m] && next.delivered == v.delivered && (next.sub.Some? <==> v.sub.Some?)
      && (v.sub.None? ==>
            && next.early == (if |v.sent| < limit then v.sent + [m] else v.early)
            && (next.lost <==> |v.sent| + 1 > limit))
      && (v.sub.Some? ==>
            var s, t := v.sub.value, next.sub.value;
            (next.early == v.early || next.early == []) &&
            if s.closed then t == s
            else if !m.wellFormed then t.closed && t.queue == [Failed(BadEvent)]
            else if |v.sent| - |v.delivered| >= s.capacity then
              t.closed && t.queue == [Failed(Backpressure)] && !next.handled && next.ignored
            else !t.closed && t.queue == s.queue + [Live(m)])
  {
    if v.sub.None? && |v.sent| < limit {
      assert v.early == v.sent;
    }
  }

  /** A new subscription is open, with all that was sent for it in its queue, exactly if not more was sent
      than could be kept and than the queue can hold, and every event is well formed. */
  lemma RegistrationDecides(v: View, limit: nat, capacity: nat)
    requires Consistent(v, false, limit) && v.sub.None? && capacity > 0
    ensures var next := Registered(v, capacity);
      && next.sub.Some?
      && (!next.sub.value.closed <==>
            |v.sent| <= limit && |v.sent| <= capacity && forall m :: m in v.sent ==> m.wellFormed)
      && (!next.sub.value.closed ==> next.sub.value.queue == Lives(v.sent) && next.handled)
  {
    ReplayedOpenIff(Entered(v, capacity), v.early, capacity);
    if |v.sent| <= limit {
      assert v.early == v.sent;
    }
  }

  lemma {:induction false} ReplayedOpenIff(v: View, queued: seq<Message>, capacity: nat)
    requires v.sub == Some(Sub([], capacity, false, false, false)) && v.handled && capacity > 0
    ensures var next := Replayed(v, queued);
      && next.sub.Some? && next.sub.value.capacity == capacity
      && (!next.sub.value.closed <==> |queued| <= capacity && forall m :: m in queued ==> m.wellFormed)
      && (!next.sub.value.closed ==> next.sub.value.queue == Lives(queued) && next.handled)
  {
    if queued != [] {
      var last := |queued| - 1;
      ReplayedOpenIff(v, queued[..last], capacity);
      assert queued == queued[..last] + [queued[last]];
    }
  }

  lemma {:induction false} ReplayedSound(v: View, queued: seq<Message>)
    requires v.sub.Some? && v.handled && Sound(v.sub.value, [], [])
    ensures var next := Replayed(v, queued);
      && next.sub.Some? && Sound(next.sub.value, queued, [])
      && (next.handled || (next.ignored && next.sub.value.closed))
      && next.sent == v.sent && next.delivered == v.delivered
  {
    hide Sound;
    if queued != [] {
      var last := |queued| - 1;
      ReplayedSound(v, queued[..last]);
      assert queued == queued[..last] + [queued[last]];
      ReceivedSound(Replayed(v, queued[..last]).sub.value, queued[..last], [], queued[last]);
    }
  }

  /** A new handler gets the early events first, and the loss of any of them ends the subscription;
      registered after its connection has gone, it gets nothing and is not told either. */
  lemma RegisteredConsistent(v: View, stale: bool, limit: nat, capacity: nat)
    requires Consistent(v, stale, limit) && v.sub.None? && capacity > 0
    ensures var next := Registered(v, capacity);
      && Consistent(next, stale, limit) && next.sub.Some?
      && next.sent == v.sent && next.delivered == []
      && (stale ==> Stranded(next))
      && (!stale && |v.sent| > limit ==> next.sub.value.closed)
  {
    ReplayedSound(Entered(v, capacity), v.early);
    if !stale {
      assert v.lost || v.early == v.sent;
    }
  }

  lemma HandlerHasSub(v: View, stale: bool, limit: nat)
    requires Consistent(v, stale, limit) && v.handled
    ensures v.sub.Some?
  {
  }

  lemma ToldConsistent(v: View, stale: bool, limit: nat, reason: Reason)
    requires Consistent(v, stale, limit)
    ensures Consistent(Told(v, reason), true, limit)
    ensures v.sub.None? && !stale && v.sent == [] ==> Consistent(Told(v, reason), false, limit)
    ensures v.handled ==> v.sub.Some?
    ensures v.sub.Some? ==> Told(v, reason).sub.Some? && Told(v, reason).sub.value.closed
  {
  }

  lemma ToldQueue(v: View, reason: Reason)
    requires v.sub.Some?
    ensures Told(v, reason).sub.Some?
    ensures if v.handled && !v.sub.value.closed then Told(v, reason).sub.value.queue == [Failed(reason)]
      else Told(v, reason).sub == v.sub
  {
  }

  /** Taking the first item of a queue. */
  lemma TakenSound(s: Sub, sent: seq<Message>, delivered: seq<Message>)
    requires s.queue != [] && !s.terminal && Sound(s, sent, delivered)
    ensures s.queue[0].Live? ==> |delivered| < |sent| && s.queue[0].message == sent[|delivered|]
    ensures s.queue[0].Live? ==> Sound(s.(queue := s.queue[1..]), sent, delivered + [s.queue[0].message])
    ensures !s.queue[0].Live? ==> Sound(s.(queue := s.queue[1..], terminal := true), sent, delivered) && s.closed
  {
    if s.queue[0].Live? {
      assert s.queue == Lives(sent[|delivered|..|delivered| + |s.queue|]);
      assert s.queue[1..] == Lives(sent[|delivered| + 1..|delivered| + |s.queue|]);
    }
  }

  lemma ClosingConsistent(v: View, stale: bool, limit: nat)
    requires Consistent(v, stale, limit) && v.sub.Some? && !v.sub.value.closed
    ensures Consistent(Unregistered(v.(sub := Some(v.sub.value.(closed := true, closing := true)))), stale, limit)
  {
    assert v.sent[0..0] == [];
  }

  class Client {
    const orphanLimit: nat
    var subs: map<Text, Sub>
    var handlers: set<Text>
    var orphans: map<Text, seq<Message>>
    var overflowed: set<Text>
    var ignored: set<Text>
    /** What the daemon has sent for each subscription, what its consumer has got, and the
        subscriptions whose connection is gone. */
    ghost var sent: map<Text, seq<Message>>
    ghost var delivered: map<Text, seq<Message>>
    ghost var stale: set<Text>

    ghost function At(id: Text): View
      reads this
    {
      View(
        if id in subs then Some(subs[id]) else None,
        id in handlers,
        Get(orphans, id),
        id in overflowed,
        id in ignored,
        Get(sent, id),
        Get(delivered, id))
    }

    ghost predicate Valid()
      reads this
    {
      orphanLimit > 0 && forall id {:trigger At(id)} :: Consistent(At(id), id in stale, orphanLimit)
    }

    constructor (orphanLimit: nat)
      requires orphanLimit > 0
      ensures Valid() && subs == map[] && stale == {}
    {
      this.orphanLimit := orphanLimit;
      subs, handlers, orphans, overflowed, ignored := map[], {}, map[], {}, {};
      sent, delivered, stale := map[], map[], {};
    }

    /** Nothing but one subscription has changed. */
    twostate predicate OnlyFor(id: Text)
      reads this
    {
      (forall x {:trigger At(x)} :: x != id ==> At(x) == old(At(x))) && stale == old(stale)
    }

    method Put(id: Text, s: Sub)
      modifies this`subs
      ensures OnlyFor(id) && At(id) == old(At(id)).(sub := Some(s)) && subs == old(subs)[id := s]
    {
      subs := subs[id := s];
    }

    /** unregister_event_handler */
    method UnregisterEventHandler(id: Text)
      modifies this
      ensures OnlyFor(id) && At(id) == Unregistered(old(At(id)))
      ensures subs == old(subs) && sent == old(sent) && delivered == old(delivered)
    {
      handlers := handlers - {id};
      orphans := orphans - {id};
      overflowed := overflowed - {id};
      ignored := ignored + {id};
    }

    /** The registered handler: _receive, which unregisters itself when its queue is full. */
    method Handle(id: Text, item: Item)
      requires id in subs
      modifies this
      ensures OnlyFor(id) && At(id) == Handled(old(At(id)), item)
      ensures subs.Keys == old(subs.Keys)
    {
      var s := subs[id];
      if s.closed {
        return;
      }
      if !item.Live? {
        Put(id, s.(closed := true, queue := [item]));
        return;
      }
      if !item.message.wellFormed {
        Put(id, s.(closed := true, queue := [Failed(BadEvent)]));
        return;
      }
      if |s.queue| >= s.capacity {
        Put(id, s.(closed := true));
        UnregisterEventHandler(id);
        Put(id, subs[id].(queue := [Failed(Backpressure)]));
        return;
      }
      Put(id, s.(queue := s.queue + [item]));
    }

    /** The daemon sends one more event. */
    ghost method RecordSent(id: Text, m: Message)
      modifies this`sent
      ensures OnlyFor(id) && At(id) == old(At(id)).(sent := old(At(id)).sent + [m])
    {
      sent := sent[id := Get(sent, id) + [m]];
    }

    ghost method RecordDelivered(id: Text, m: Message)
      modifies this`delivered
      ensures OnlyFor(id) && At(id) == old(At(id)).(delivered := old(At(id)).delivered + [m])
    {
      delivered := delivered[id := Get(delivered, id) + [m]];
    }

    /** _dispatch_event, for a subscription of the present connection. */
    method DispatchEvent(id: Text, m: Message)
      requires Valid() && id !in stale
      modifies this
      ensures Valid() && OnlyFor(id) && At(id) == Dispatched(old(At(id)), m, orphanLimit)
    {
      hide Get, Handled, Sound;
      DispatchedConsistent(At(id), m, orphanLimit);
      if id in handlers {
        HandlerHasSub(At(id), false, orphanLimit);
      }
      hide Consistent;
      if id in handlers {
        Handle(id, Live(m));
      } else if id !in ignored {
        KeepEarly(id, m);
      }
      RecordSent(id, m);
    }

    /** The queue of events that come before their handler. */
    method KeepEarly(id: Text, m: Message)
      modifies this`orphans, this`overflowed
      ensures OnlyFor(id)
      ensures var v := old(At(id));
        At(id) == if |v.early| >= orphanLimit then v.(lost := true) else v.(early := v.early + [m])
    {
      var queued := Get(orphans, id);
      if |queued| >= orphanLimit {
        orphans := orphans[id := queued];
        overflowed := overflowed + {id};
      } else {
        orphans := orphans[id := queued + [m]];
      }
    }

    /** The early events, handed to the new handler in order. */
    method Replay(id: Text, queued: seq<Message>)
      requires id in subs
      modifies this
      ensures OnlyFor(id) && At(id) == Replayed(old(At(id)), queued) && subs.Keys == old(subs.Keys)
    {
      hide Handled, Get, At;
      var i := 0;
      while i < |queued|
        invariant 0 <= i <= |queued| && subs.Keys == old(subs.Keys)
        invariant OnlyFor(id) && At(id) == Replayed(old(At(id)), queued[..i])
      {
        assert queued[..i + 1][..i] == queued[..i];
        Handle(id, Live(queued[i]));
        i := i + 1;
      }
      assert queued[..i] == queued;
    }

    /** The bookkeeping of a registration: what came early is taken out. */
    method TakeEarly(id: Text, capacity: nat) returns (queued: seq<Message>, lost: bool)
      modifies this
      ensures OnlyFor(id) && At(id) == Entered(old(At(id)), capacity) && id in subs
      ensures queued == old(At(id)).early && lost == old(At(id)).lost
    {
      ignored := ignored - {id};
      handlers := handlers + {id};
      subs := subs[id := Sub([], capacity, false, false, false)];
      queued := Get(orphans, id);
      orphans := orphans - {id};
      lost := id in overflowed;
      overflowed := overflowed - {id};
    }

    /** register_event_handler, for a Subscription object that has just been entered: it gets its early
        events first, and the loss of any of them ends it. Registered after its connection has gone,
        it gets nothing and is not told either. */
    method RegisterEventHandler(id: Text, capacity: nat)
      requires Valid() && id !in subs && capacity > 0
      modifies this
      ensures Valid() && OnlyFor(id) && id in subs && At(id) == Registered(old(At(id)), capacity)
      ensures At(id).sent == old(At(id)).sent && At(id).delivered == []
      ensures id in stale ==> Stranded(At(id))
      ensures id !in stale && |At(id).sent| > orphanLimit ==> subs[id].closed
    {
      hide Get, Handled, Consistent, Replayed;
      RegisteredConsistent(At(id), id in stale, orphanLimit, capacity);
      var queued, lost := TakeEarly(id, capacity);
      Replay(id, queued);
      if lost {
        Handle(id, Failed(Backpressure));
      }
    }

    lemma WillBeTold(reason: Reason, used: set<Text>)
      requires Valid()
      requires forall id :: id in used || id in subs || id in stale || At(id).sent == []
      ensures handlers <= subs.Keys
      ensures forall x {:trigger At(x)} ::
        && Consistent(Told(At(x), reason), x in stale + used + subs.Keys, orphanLimit)
        && (x in subs ==> Told(At(x), reason).sub.Some? && Told(At(x), reason).sub.value.closed)
    {
      hide Get, Consistent, Received;
      forall x
        ensures Consistent(Told(At(x), reason), x in stale + used + subs.Keys, orphanLimit)
        ensures x in subs ==> Told(At(x), reason).sub.Some? && Told(At(x), reason).sub.value.closed
        ensures x in handlers ==> x in subs
      {
        ToldConsistent(At(x), x in stale, orphanLimit, reason);
      }
    }

    /** _fail_waiters, when the connection ends or the client is closed. `used` are the subscription
        IDs the daemon gave out on it. Every subscription that has registered is told. */
    method FailWaiters(reason: Reason, ghost used: set<Text>)
      requires Valid()
      requires forall id :: id in used || id in subs || id in stale || At(id).sent == []
      modifies this
      ensures Valid() && forall id {:trigger At(id)} :: At(id) == Told(old(At(id)), reason)
      ensures forall id :: id in subs ==> subs[id].closed
      ensures forall id :: id in subs && id in old(subs) ==>
        if id in old(handlers) && !old(subs)[id].closed then subs[id].queue == [Failed(reason)]
        else subs[id] == old(subs)[id]
      ensures subs.Keys == old(subs.Keys) && stale == old(stale) + used + subs.Keys
    {
      hide Get, Consistent, Received;
      WillBeTold(reason, used);
      TellHandlers(reason);
      Forget(used);
      forall x | x in subs
        ensures subs[x].closed
        ensures x in old(subs) ==>
          if x in old(handlers) && !old(subs)[x].closed then subs[x].queue == [Failed(reason)]
          else subs[x] == old(subs)[x]
      {
        assert At(x).sub == Some(subs[x]);
        ToldQueue(old(At(x)), reason);
      }
    }

    /** All bookkeeping of the connection is dropped. */
    method Forget(ghost used: set<Text>)
      modifies this`handlers, this`orphans, this`overflowed, this`ignored, this`stale
      ensures forall x {:trigger At(x)} ::
        At(x) == old(At(x)).(handled := false, early := [], lost := false, ignored := false)
      ensures stale == old(stale) + used + subs.Keys
    {
      handlers, orphans, overflowed, ignored := {}, map[], {}, {};
      stale := stale + used + subs.Keys;
    }

    /** Each registered handler is called with the error. */
    method TellHandlers(reason: Reason)
      requires handlers <= subs.Keys
      modifies this
      ensures forall x {:trigger At(x)} ::
        At(x) == if x in old(handlers) then Handled(old(At(x)), Failed(reason)) else old(At(x))
      ensures subs.Keys == old(subs.Keys) && stale == old(stale)
    {
      hide At, Handled;
      var left := handlers;
      ghost var told: set<Text> := {};
      while left != {}
        invariant told + left == old(handlers) && told !! left && subs.Keys == old(subs.Keys) && stale == old(stale)
        invariant forall x {:trigger At(x)} ::
          At(x) == if x in told then Handled(old(At(x)), Failed(reason)) else old(At(x))
        decreases |left|
      {
        var next :| next in left;
        left := left - {next};
        told := told + {next};
        Handle(next, Failed(reason));
      }
    }

    /** __anext__, without waiting. An item is the next event that was sent. */
    method Next(id: Text) returns (r: Turn)
      requires Valid() && id in subs
      modifies this
      ensures Valid() && OnlyFor(id) && id in subs && At(id).sent == old(At(id)).sent
      ensures r.Got? ==>
        && |old(At(id)).delivered| < |At(id).sent|
        && r.message == At(id).sent[|old(At(id)).delivered|]
        && At(id).delivered == old(At(id)).delivered + [r.message]
      ensures !r.Got? ==> At(id).delivered == old(At(id)).delivered
      ensures r == Stop || r.Raised? ==> subs[id].terminal
      ensures r == Blocked <==> !old(subs[id].terminal) && old(subs[id].queue) == []
      ensures r == Blocked ==> subs == old(subs)
      ensures old(subs[id].terminal) ==> r == Stop
    {
      hide Get;
      assert Consistent(At(id), id in stale, orphanLimit);
      var s := subs[id];
      if s.terminal {
        return Stop;
      }
      if s.queue == [] {
        return Blocked;
      }
      var item := s.queue[0];
      TakenSound(s, At(id).sent, At(id).delivered);
      match item {
        case End =>
          Put(id, s.(queue := s.queue[1..], terminal := true));
          r := Stop;
        case Failed(reason) =>
          Put(id, s.(queue := s.queue[1..], terminal := true));
          r := Raised(reason);
        case Live(message) =>
          Put(id, s.(queue := s.queue[1..]));
          RecordDelivered(id, message);
          r := Got(message);
      }
    }

    /** aclose up to its request to the daemon; nothing is put into the queue any more. */
    method StartClose(id: Text)
      requires Valid() && id in subs
      modifies this
      ensures Valid() && OnlyFor(id) && id in subs
      ensures At(id).sent == old(At(id)).sent && At(id).delivered == old(At(id)).delivered
      ensures subs[id].closed && subs[id].queue == old(subs[id].queue)
      ensures !old(subs[id]).closed ==> subs[id].closing && id !in handlers
    {
      hide Get, Sound;
      if subs[id].closed {
        return;
      }
      ClosingConsistent(At(id), id in stale, orphanLimit);
      hide Consistent;
      Put(id, subs[id].(closed := true, closing := true));
      UnregisterEventHandler(id);
    }

    /** aclose after the daemon has answered or the connection was lost. */
    method FinishClose(id: Text)
      requires Valid() && id in subs && subs[id].closing
      modifies this
      ensures Valid() && OnlyFor(id) && id in subs
      ensures At(id).sent == old(At(id)).sent && At(id).delivered == old(At(id)).delivered
      ensures Ended(subs[id]) && subs[id].queue == [End]
    {
      hide Get;
      assert Consistent(At(id), id in stale, orphanLimit);
      Put(id, subs[id].(closing := false, queue := [End]));
    }

    /** Over every interleaving of these operations a consumer has seen a contiguous prefix of what was
        sent for it; an open subscription of the present connection still holds all the rest, and one
        that is not open ends at the next item or is being closed. */
    lemma GapFreePrefix(id: Text)
      requires Valid() && id in subs
      ensures At(id).delivered <= At(id).sent
      ensures id !in stale && !subs[id].closed ==> At(id).sent == At(id).delivered + MessagesOf(subs[id].queue)
      ensures subs[id].closed && !subs[id].closing ==> Ended(subs[id])
      ensures id in stale && !subs[id].closed ==> Stranded(At(id))
    {
      hide Get;
      assert Consistent(At(id), id in stale, orphanLimit);
      var s, all, d := subs[id], At(id).sent, At(id).delivered;
      if id !in stale && !s.closed {
        assert s.queue == Lives(all[|d|..|d| + |s.queue|]);
        MessagesOfLives(all[|d|..|d| + |s.queue|]);
        assert all == d + all[|d|..|all|];
      }
    }
  }

  /** The connection is lost between the daemon's answer and the registration: the consumer waits, and
      is not told. */
  method LateRegistrationIsNotTold(c: Client, id: Text, capacity: nat) returns (r: Turn)
    requires c.Valid() && id !in c.subs && capacity > 0
    requires forall x :: x in c.subs || x in c.stale || x == id || c.At(x).sent == []
    modifies c
    ensures c.Valid() && id in c.subs && r == Blocked && !c.subs[id].closed
  {
    c.FailWaiters(ConnectionLost, {id});
    c.RegisterEventHandler(id, capacity);
    r := c.Next(id);
  }

  function MessagesOf(items: seq<Item>): seq<Message> {
    if items == [] then []
    else MessagesOf(items[..|items| - 1]) + if items[|items| - 1].Live? then [items[|items| - 1].message] else []
  }

  lemma {:induction false} MessagesOfLives(ms: seq<Message>)
    ensures MessagesOf(Lives(ms)) == ms
  {
    if ms != [] {
      var front := ms[..|ms| - 1];
      MessagesOfLives(front);
      assert Lives(ms)[..|ms| - 1] == Lives(front);
      assert ms == front + [ms[|ms| - 1]];
    }
  }
}
