/** A node's clock over a run of the mesh is the standalone clock, driven by the transactions that the
    node committed. */
module NodeClocks {
  import opened Bytes
  import opened Hlc
  import opened Store
  import opened Ingest
  import opened Replication
  import opened Replica
  import opened World

  /** The step stores a new event at node i. */
  ghost predicate StoresNew(h: Hashes, w: World, s: Step, i: nat) {
    && Enabled(h, w, s) && !s.Observe? && !s.Restart? && s.i == i
    && Run(h, w, s).Committed? && Run(h, w, s).created
  }

  /** What a step that stores an event feeds the clock: the wall clock, and the event's own stamp if it
      was not stamped here. */
  function InputFor(s: Step, e: Event): Input
    requires !s.Observe? && !s.Restart?
  {
    if s.Local? || s.Resolve? then LocalTick(s.wall) else Received(Stamp(e), s.wall)
  }

  ghost function InputOf(h: Hashes, w: World, s: Step, i: nat): Input
    requires StoresNew(h, w, s, i)
  {
    InputFor(s, Run(h, w, s).event)
  }

  /** The inputs of node i in the first n steps. */
  ghost function Inputs(h: Hashes, ws: seq<World>, ss: seq<Step>, i: nat, n: nat): seq<Input>
    requires |ws| == |ss| + 1 && n <= |ss|
  {
    if n == 0 then []
    else
      var earlier := Inputs(h, ws, ss, i, n - 1);
      if StoresNew(h, ws[n - 1], ss[n - 1], i) then earlier + [InputOf(h, ws[n - 1], ss[n - 1], i)] else earlier
  }

  /** One step moves a node's clock exactly as its input moves a standalone clock, or not at all. */
  lemma StepMovesClock(h: Hashes, w: World, s: Step, i: nat)
    requires Inv(h, w) && Enabled(h, w, s) && i < |w.nodes|
    ensures i < |Next(h, w, s).nodes|
    ensures var before, after := w.nodes[i].hlc, Next(h, w, s).nodes[i].hlc;
      if StoresNew(h, w, s, i) then Advance(before, InputOf(h, w, s, i)) == Ticked(after) else after == before
  {
    ClockIsPersisted(h, w, i);
    hide Inv, Enabled, Run, Advance, InputFor;
    if !s.Observe? && !s.Restart? {
      RunMovesClock(h, w, s);
    }
  }

  lemma RunMovesClock(h: Hashes, w: World, s: Step)
    requires Enabled(h, w, s) && !s.Observe? && !s.Restart?
    ensures s.i < |w.nodes|
    ensures var c := Run(h, w, s); c.Committed? ==>
      if c.created then Advance(w.nodes[s.i].hlc, InputFor(s, c.event)) == Ticked(c.node.hlc)
      else c.node == w.nodes[s.i]
  {
    hide Fresh, Recover, IngestPublic, IngestInternal, ApplyReplicated, Events, NextLocal, Merge, Stamp;
    match s {
      case Local(_, q, wall, mint) =>
        LocalMovesClock(w.nodes[s.i], q, wall, mint);
      case Resolve(_, r, wall, mint) =>
        LocalMovesClock(w.nodes[s.i], ResolutionRequest(r), wall, mint);
      case Receive(_, j, r, wall) =>
        ReceiveMovesClock(w.nodes[s.i], Events(w.nodes[j].store)[r], wall);
      case Copy(_, x, wall) =>
        var m := Events(w.nodes[s.i].store);
        ReceiveMovesClock(w.nodes[s.i], Recover(h, m[TargetOf(m[x])]), wall);
    }
  }

  lemma LocalMovesClock(n: Node, q: Request, wall: Instant, mint: Text)
    ensures forall c :: c in {IngestPublic(n, q, wall, mint), IngestInternal(n, q, wall, mint)} && c.Committed? ==>
      if c.created then NextLocal(n.hlc, wall) == Ticked(c.node.hlc) else c.node == n
  {
  }

  lemma ReceiveMovesClock(n: Node, e: Event, wall: Instant)
    ensures var c := ApplyReplicated(n, e, wall); c.Committed? ==>
      if c.created then c.event == e && Merge(n.hlc, Stamp(e), wall) == Ticked(c.node.hlc) else c.node == n
  {
  }

  lemma ClockIsPersisted(h: Hashes, w: World, i: nat)
    requires Inv(h, w) && i < |w.nodes|
    ensures w.nodes[i].hlc == w.nodes[i].store.clock
  {
  }

  lemma {:induction false} ClockIsRun(h: Hashes, ws: seq<World>, ss: seq<Step>, i: nat, n: nat)
    requires Trace(h, ws, ss) && Inv(h, ws[0]) && i < |ws[0].nodes| && n <= |ss|
    ensures i < |ws[n].nodes| && ws[n].nodes[i].hlc == RunClock(ws[0].nodes[i].hlc, Inputs(h, ws, ss, i, n))
    ensures forall k :: 0 <= k < |Inputs(h, ws, ss, i, n)| ==>
      Accepted(ws[0].nodes[i].hlc, Inputs(h, ws, ss, i, n), k)
    decreases n
  {
    hide Inv, Enabled, Next, StoresNew, InputOf, Advance;
    if n > 0 {
      ClockIsRun(h, ws, ss, i, n - 1);
      TraceKeepsInv(h, ws, ss, n - 1);
      assert TraceStep(h, ws, ss, n - 1);
      StepMovesClock(h, ws[n - 1], ss[n - 1], i);
      var start, earlier := ws[0].nodes[i].hlc, Inputs(h, ws, ss, i, n - 1);
      if StoresNew(h, ws[n - 1], ss[n - 1], i) {
        AcceptedOneMore(start, earlier, InputOf(h, ws[n - 1], ss[n - 1], i));
      }
    }
  }

  lemma AcceptedOneMore(start: Timestamp, inputs: seq<Input>, next: Input)
    requires Advance(RunClock(start, inputs), next).Ticked?
    ensures RunClock(start, inputs + [next]) == Advance(RunClock(start, inputs), next).stamp
    ensures Accepted(start, inputs + [next], |inputs|)
    ensures forall k :: 0 <= k < |inputs| ==> Accepted(start, inputs + [next], k) == Accepted(start, inputs, k)
  {
    var all := inputs + [next];
    assert all[..|inputs|] == inputs;
    forall k | 0 <= k < |inputs| ensures Accepted(start, all, k) == Accepted(start, inputs, k) {
      assert all[..k] == inputs[..k];
    }
  }

  /** After any run of the mesh a node's physical time is the greatest of its time at the start and of
      the wall and remote times of the transactions that it committed. */
  lemma NodeTimeIsMaximum(h: Hashes, ws: seq<World>, ss: seq<Step>, i: nat, n: nat)
    requires Trace(h, ws, ss) && Inv(h, ws[0]) && i < |ws[0].nodes| && n <= |ss|
    ensures i < |ws[n].nodes|
    ensures var inputs := Inputs(h, ws, ss, i, n);
      var start, now := ws[0].nodes[i].hlc.physical, ws[n].nodes[i].hlc.physical;
      && start <= now && (forall k :: 0 <= k < |inputs| ==> Reading(inputs[k]) <= now)
      && (now == start || exists k :: 0 <= k < |inputs| && Reading(inputs[k]) == now)
  {
    hide Inv, RunClock, Inputs;
    ClockIsRun(h, ws, ss, i, n);
    var inputs := Inputs(h, ws, ss, i, n);
    PhysicalIsMaximum(ws[0].nodes[i].hlc, inputs);
    forall k | 0 <= k < |inputs| ensures Reading(inputs[k]) <= ws[n].nodes[i].hlc.physical {
      assert IsReading(ws[0].nodes[i].hlc, inputs, Reading(inputs[k]));
    }
    assert IsReading(ws[0].nodes[i].hlc, inputs, ws[0].nodes[i].hlc.physical);
  }
}
