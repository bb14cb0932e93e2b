/** One connection shared by many callers: requests are matched to responses by number, and the
    reader task tears everything down when the stream ends. Each step is what one task does between
    two points where others can run. Models `crates/alloyfs-transport/src/mux.rs`. */
module Mux {
  import opened Common

  datatype Outcome = Got(id: nat, body: int) | Closed | TimedOut | Abandoned

  /** Where a caller is in `begin_request` and the wait that follows. */
  datatype Phase =
    | Start
    | Checked              // saw the connection open
    | Numbered(id: nat)    // has its number, entry not inserted yet
    | Inserted(id: nat)    // entry inserted, closed flag not re-checked yet
    | Sending(id: nat)     // re-check passed, frame not queued yet
    | Parked(id: nat)      // waiting on its one-shot channel
    | Ended(outcome: Outcome)

  datatype Slot = Pending | Filled(body: int) | Dropped

  /** The one-shot channel made for a request. */
  datatype Channel = Channel(task: nat, slot: Slot)

  datatype Teardown = Up | Clearing(doomed: set<nat>) | Down

  /** `inflight` holds the numbers whose sender is in the map; `heard` is what the peer answered. */
  datatype System = System(nextId: nat, inflight: set<nat>, channels: map<nat, Channel>, callers: map<nat, Phase>,
                           closed: bool, teardown: Teardown, heard: set<(nat, int)>)

  function Init(): System {
    System(1, {}, map[], map[], false, Up, {})
  }

  datatype Step =
    | Call(task: nat)
    | CheckClosed(task: nat)
    | TakeNumber(task: nat)
    | Insert(task: nat)
    | Recheck(task: nat)
    | Sent(task: nat)
    | SendFailed(task: nat)
    | Wake(task: nat)
    | Timeout(task: nat)
    | Abandon(task: nat)
    | Respond(id: nat, body: int)
    | Flag
    | ClearOne(id: nat)
    | ClearDone

  predicate Enabled(s: System, step: Step) {
    match step
    case Call(t) => t !in s.callers
    case CheckClosed(t) => t in s.callers && s.callers[t].Start?
    case TakeNumber(t) => t in s.callers && s.callers[t].Checked?
    case Insert(t) => t in s.callers && s.callers[t].Numbered?
    case Recheck(t) => t in s.callers && s.callers[t].Inserted?
    case Sent(t) => t in s.callers && s.callers[t].Sending?
    case SendFailed(t) => t in s.callers && s.callers[t].Sending?
    case Wake(t) =>
      t in s.callers && s.callers[t].Parked? && s.callers[t].id in s.channels
      && !s.channels[s.callers[t].id].slot.Pending?
    case Timeout(t) => t in s.callers && s.callers[t].Parked?
    case Abandon(t) => t in s.callers && (s.callers[t].Sending? || s.callers[t].Parked?)
    case Respond(_, _) => s.teardown.Up?
    case Flag => s.teardown.Up?
    case ClearOne(id) => s.teardown.Clearing? && id in s.inflight
    case ClearDone => s.teardown.Clearing? && s.teardown.doomed !! s.inflight
  }

  /** Taking an entry out of the map without using its sender drops the sender. */
  function Discard(s: System, id: nat): System {
    if id in s.inflight && id in s.channels
    then s.(inflight := s.inflight - {id}, channels := s.channels[id := s.channels[id].(slot := Dropped)])
    else s.(inflight := s.inflight - {id})
  }

  function Move(s: System, t: nat, p: Phase): System {
    s.(callers := s.callers[t := p])
  }

  function Apply(s: System, step: Step): System
    requires Enabled(s, step)
  {
    match step
    case Call(t) => Move(s, t, Start)
    case CheckClosed(t) => Move(s, t, if s.closed then Ended(Closed) else Checked)
    case TakeNumber(t) =>
      Move(s, t, Numbered(s.nextId)).(nextId := s.nextId + 1, channels := s.channels[s.nextId := Channel(t, Pending)])
    case Insert(t) => Move(s, t, Inserted(s.callers[t].id)).(inflight := s.inflight + {s.callers[t].id})
    case Recheck(t) =>
      var id := s.callers[t].id;
      if s.closed then Move(Discard(s, id), t, Ended(Closed)) else Move(s, t, Sending(id))
    case Sent(t) => Move(s, t, Parked(s.callers[t].id))
    case SendFailed(t) => Move(Discard(s, s.callers[t].id), t, Ended(Closed))
    case Wake(t) =>
      var id := s.callers[t].id;
      var slot := s.channels[id].slot;
      Move(s, t, Ended(if slot.Filled? then Got(id, slot.body) else Closed))
    case Timeout(t) => Move(Discard(s, s.callers[t].id), t, Ended(TimedOut))
    case Abandon(t) => Move(s, t, Ended(Abandoned))
    case Respond(id, body) =>
      if id in s.inflight && id in s.channels
      then s.(inflight := s.inflight - {id}, channels := s.channels[id := s.channels[id].(slot := Filled(body))],
              heard := s.heard + {(id, body)})
      else s.(heard := s.heard + {(id, body)})
    case Flag => s.(closed := true, teardown := Clearing(s.inflight))
    case ClearOne(id) => Discard(s, id)
    case ClearDone => s.(teardown := Down)
  }

  function Run(steps: seq<Step>): Option<System> {
    if steps == [] then Some(Init())
    else
      var before := Run(steps[..|steps| - 1]);
      if before.Some? && Enabled(before.value, steps[|steps| - 1])
      then Some(Apply(before.value, steps[|steps| - 1])) else None
  }

  // ------------------------------------------------------------ invariant

  predicate HasNumber(p: Phase) {
    p.Numbered? || p.Inserted? || p.Sending? || p.Parked?
  }

  /** A number belongs to the caller its channel was made for. */
  ghost predicate Owned(s: System, t: nat) {
    t in s.callers ==>
      var p := s.callers[t];
      && (HasNumber(p) ==> p.id in s.channels && s.channels[p.id].task == t)
      && (p.Numbered? ==> s.channels[p.id].slot.Pending? && p.id !in s.inflight)
      && (p.Ended? && p.outcome.Got? ==>
            p.outcome.id in s.channels && s.channels[p.outcome.id] == Channel(t, Filled(p.outcome.body)))
  }

  /** A sender is in the map only while its channel is unused; once its caller has gone past the
      insertion, an unused channel's sender is in the map. */
  ghost predicate Reachable(s: System, id: nat) {
    && (id in s.channels ==> id < s.nextId)
    && (id in s.inflight ==> id in s.channels && s.channels[id].slot.Pending?)
    && (id in s.channels && s.channels[id].slot.Pending? && id !in s.inflight ==>
          s.channels[id].task in s.callers && s.callers[s.channels[id].task] == Numbered(id))
    && (id in s.channels && s.channels[id].slot.Filled? ==> (id, s.channels[id].slot.body) in s.heard)
  }

  /** After the flag is up, an entry that is not about to be cleared belongs to a caller that has
      yet to re-check. */
  ghost predicate Swept(s: System, id: nat) {
    && (s.teardown.Up? <==> !s.closed)
    && (id in s.inflight && !s.teardown.Up? && !(s.teardown.Clearing? && id in s.teardown.doomed) ==>
          id in s.channels && s.channels[id].task in s.callers && s.callers[s.channels[id].task] == Inserted(id))
  }

  ghost predicate Inv(s: System) {
    && (forall t :: Owned(s, t))
    && (forall id :: Reachable(s, id) && Swept(s, id))
  }

  /** Steps that move one caller without touching channels or the map. */
  lemma MoveKeeps(s: System, t: nat, p: Phase)
    requires Inv(s) && t in s.callers && Owned(Move(s, t, p), t)
    requires !s.callers[t].Numbered? && (s.callers[t].Inserted? ==> !s.closed)
    ensures Inv(Move(s, t, p))
  {
    var v := Move(s, t, p);
    forall u ensures Owned(v, u) { assert Owned(s, u); }
    forall id ensures Reachable(v, id) && Swept(v, id) {
      assert Reachable(s, id) && Swept(s, id);
    }
  }

  lemma DiscardKeeps(s: System, id: nat)
    requires Inv(s)
    ensures Inv(Discard(s, id)) && id !in Discard(s, id).inflight
  {
    var v := Discard(s, id);
    assert Reachable(s, id);
    forall u ensures Owned(v, u) {
      assert Owned(s, u);
    }
    forall x ensures Reachable(v, x) && Swept(v, x) { assert Reachable(s, x) && Swept(s, x); }
  }

  lemma DiscardMoveKeeps(s: System, t: nat, o: Outcome)
    requires Inv(s) && t in s.callers && !o.Got?
    requires s.callers[t].Inserted? || s.callers[t].Sending? || s.callers[t].Parked?
    ensures Inv(Move(Discard(s, s.callers[t].id), t, Ended(o)))
  {
    var id := s.callers[t].id;
    var w := Discard(s, id);
    DiscardKeeps(s, id);
    var v := Move(w, t, Ended(o));
    assert Owned(s, t);
    forall u ensures Owned(v, u) { assert Owned(w, u); }
    forall x ensures Reachable(v, x) && Swept(v, x) {
      assert Reachable(w, x) && Swept(w, x);
      assert Reachable(s, x);
    }
  }

  lemma KeepsTakeNumber(s: System, t: nat)
    requires Inv(s) && Enabled(s, TakeNumber(t))
    ensures Inv(Apply(s, TakeNumber(t)))
  {
    var v := Apply(s, TakeNumber(t));
    assert Reachable(s, s.nextId);
    forall u ensures Owned(v, u) { assert Owned(s, u); }
    forall x ensures Reachable(v, x) && Swept(v, x) { assert Reachable(s, x) && Swept(s, x); }
  }

  lemma KeepsInsert(s: System, t: nat)
    requires Inv(s) && Enabled(s, Insert(t))
    ensures Inv(Apply(s, Insert(t)))
  {
    var v := Apply(s, Insert(t));
    assert Owned(s, t);
    forall u ensures Owned(v, u) { assert Owned(s, u); }
    forall x ensures Reachable(v, x) && Swept(v, x) { assert Reachable(s, x) && Swept(s, x); }
  }

  lemma KeepsRespond(s: System, id: nat, body: int)
    requires Inv(s) && Enabled(s, Respond(id, body))
    ensures Inv(Apply(s, Respond(id, body)))
  {
    var v := Apply(s, Respond(id, body));
    assert Reachable(s, id);
    forall u ensures Owned(v, u) { assert Owned(s, u); }
    forall x ensures Reachable(v, x) && Swept(v, x) { assert Reachable(s, x) && Swept(s, x); }
  }

  lemma KeepsTeardown(s: System, step: Step)
    requires Inv(s) && Enabled(s, step) && (step.Flag? || step.ClearDone?)
    ensures Inv(Apply(s, step))
  {
    var v := Apply(s, step);
    forall u ensures Owned(v, u) { assert Owned(s, u); }
    forall x ensures Reachable(v, x) && Swept(v, x) { assert Reachable(s, x) && Swept(s, x); }
  }

  lemma KeepsCall(s: System, t: nat)
    requires Inv(s) && Enabled(s, Call(t))
    ensures Inv(Apply(s, Call(t)))
  {
    var v := Apply(s, Call(t));
    forall u ensures Owned(v, u) { assert Owned(s, u); }
    forall x ensures Reachable(v, x) && Swept(v, x) { assert Reachable(s, x) && Swept(s, x); }
  }

  lemma KeepsInv(s: System, step: Step)
    requires Inv(s) && Enabled(s, step)
    ensures Inv(Apply(s, step))
  {
    match step
    case Call(t) => KeepsCall(s, t);
    case CheckClosed(t) => MoveKeeps(s, t, if s.closed then Ended(Closed) else Checked);
    case TakeNumber(t) => KeepsTakeNumber(s, t);
    case Insert(t) => KeepsInsert(s, t);
    case Recheck(t) =>
      assert Owned(s, t);
      if s.closed { DiscardMoveKeeps(s, t, Closed); } else { MoveKeeps(s, t, Sending(s.callers[t].id)); }
    case Sent(t) =>
      assert Owned(s, t);
      MoveKeeps(s, t, Parked(s.callers[t].id));
    case SendFailed(t) => DiscardMoveKeeps(s, t, Closed);
    case Wake(t) =>
      assert Owned(s, t);
      MoveKeeps(s, t, Apply(s, step).callers[t]);
    case Timeout(t) => DiscardMoveKeeps(s, t, TimedOut);
    case Abandon(t) => MoveKeeps(s, t, Ended(Abandoned));
    case Respond(id, body) => KeepsRespond(s, id, body);
    case Flag => KeepsTeardown(s, step);
    case ClearOne(id) => DiscardKeeps(s, id);
    case ClearDone => KeepsTeardown(s, step);
  }

  lemma {:induction false} EveryRun(steps: seq<Step>)
    requires Run(steps).Some?
    ensures Inv(Run(steps).value)
  {
    if steps != [] {
      EveryRun(steps[..|steps| - 1]);
      KeepsInv(Run(steps[..|steps| - 1]).value, steps[|steps| - 1]);
    }
  }

  // ----------------------------------------------------------- consequences

  /** A caller only gets what the peer answered under its own number, and no answer is given to two
      callers. */
  lemma ResponsesReachTheirCaller(steps: seq<Step>, t: nat, u: nat)
    requires Run(steps).Some?
    requires var s := Run(steps).value;
             t in s.callers && s.callers[t].Ended? && s.callers[t].outcome.Got?
    ensures var s := Run(steps).value; var o := s.callers[t].outcome;
            && o.id in s.channels && s.channels[o.id].task == t && (o.id, o.body) in s.heard
            && (u in s.callers && s.callers[u].Ended? && s.callers[u].outcome.Got? && s.callers[u].outcome.id == o.id
                ==> u == t)
  {
    EveryRun(steps);
    var s := Run(steps).value;
    assert Owned(s, t) && Owned(s, u) && Reachable(s, s.callers[t].outcome.id);
  }

  /** After teardown nobody stays parked: a parked caller's channel is resolved, so it can run; and
      an entry left in the map belongs to a caller whose re-check removes it. */
  lemma NobodyParkedAfterTeardown(steps: seq<Step>)
    requires Run(steps).Some? && Run(steps).value.teardown.Down?
    ensures var s := Run(steps).value;
            && (forall t | t in s.callers && s.callers[t].Parked? :: Enabled(s, Wake(t)))
            && (forall id | id in s.inflight ::
                  && id in s.channels && s.channels[id].task in s.callers
                  && s.callers[s.channels[id].task] == Inserted(id)
                  && Enabled(s, Recheck(s.channels[id].task))
                  && id !in Apply(s, Recheck(s.channels[id].task)).inflight)
  {
    EveryRun(steps);
    var s := Run(steps).value;
    forall t | t in s.callers && s.callers[t].Parked? ensures Enabled(s, Wake(t)) {
      assert Owned(s, t) && Reachable(s, s.callers[t].id) && Swept(s, s.callers[t].id);
    }
    forall id | id in s.inflight
      ensures && id in s.channels && s.channels[id].task in s.callers
              && s.callers[s.channels[id].task] == Inserted(id) && s.closed
    {
      assert Reachable(s, id) && Swept(s, id);
    }
  }

  /** Before teardown too, a parked caller is never forgotten: its channel is resolved or a response
      can still reach it. */
  lemma ParkedCallersAreReachable(steps: seq<Step>, t: nat, body: int)
    requires Run(steps).Some?
    requires t in Run(steps).value.callers && Run(steps).value.callers[t].Parked?
    ensures var s := Run(steps).value; var id := s.callers[t].id;
            Enabled(s, Wake(t)) || (id in s.inflight && (s.teardown.Up? ==>
              Enabled(Apply(s, Respond(id, body)), Wake(t))
              && Apply(Apply(s, Respond(id, body)), Wake(t)).callers[t] == Ended(Got(id, body))))
  {
    EveryRun(steps);
    var s := Run(steps).value;
    assert Owned(s, t) && Reachable(s, s.callers[t].id);
  }
}
