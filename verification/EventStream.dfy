/** Publishing and subscribing at the same time. `publish` is split where it drops the log's lock
    (append, then send) and `subscribe` where it takes it (open the receiver, then read the log);
    any number of publishers may stand between their two halves. One arbitrary subscriber is
    followed; subscribers do not affect each other. Models `crates/alloyfs-agent/src/watch.rs`
    and `crates/alloyfs-agent/src/ops.rs`. */
module EventStream {
  import opened Common
  import opened EventHub

  /** Batches the live channel keeps for a slow receiver. */
  const CHANNEL_CAP: nat := 256

  /** `Resync(at)` tells the subscriber to start over; `at` events had been published by then. */
  datatype Msg = Deliver(event: Event) | Resync(at: nat)

  datatype Subscriber =
    | Idle
    | Opened(since: Option<nat>, from: nat, cursor: nat)
    | Refused
    | Streaming(from: nat, cursor: nat, catchup: seq<Event>, caughtUp: bool, got: seq<Msg>)

  /** `history` is everything ever published, `unsent` the batches appended but not yet sent. */
  datatype System = System(ring: Ring, history: seq<Event>, unsent: seq<seq<Event>>, sent: seq<seq<Event>>,
                           session: nat, sub: Subscriber)

  function Init(cap: nat, session: nat): System {
    System(Ring(0, [], cap), [], [], [], session, Idle)
  }

  /** Events caused by the receiving session itself are taken out. */
  function Strip(session: nat, events: seq<Event>): seq<Msg> {
    if events == [] then []
    else
      var init, last := Strip(session, events[..|events| - 1]), events[|events| - 1];
      if last.origin == Some(session) then init else init + [Deliver(last)]
  }

  datatype Step =
    | Append(raws: seq<Raw>)
    | Send(i: nat)
    | Open(since: Option<nat>)
    | ReadLog
    | PushCatchUp
    | Receive

  predicate Lagging(s: System) {
    s.sub.Streaming? && |s.sent| - s.sub.cursor > CHANNEL_CAP
  }

  predicate Enabled(s: System, step: Step) {
    match step
    case Append(raws) => raws != []
    case Send(i) => i < |s.unsent|
    case Open(_) => s.sub.Idle?
    case ReadLog => s.sub.Opened?
    case PushCatchUp => s.sub.Streaming? && !s.sub.caughtUp
    case Receive => s.sub.Streaming? && s.sub.caughtUp && s.sub.cursor < |s.sent|
  }

  function Apply(s: System, step: Step): System
    requires Enabled(s, step)
  {
    match step
    case Append(raws) =>
      var batch := Batch(s.ring, raws);
      s.(ring := AppendAll(s.ring, raws), history := s.history + batch, unsent := s.unsent + [batch])
    case Send(i) =>
      s.(unsent := s.unsent[..i] + s.unsent[i + 1..], sent := s.sent + [s.unsent[i]])
    case Open(since) =>
      // live-only subscribers are owed what is published from here on
      s.(sub := Opened(since, if since.Some? then since.value else |s.history|, |s.sent|))
    case ReadLog =>
      var catchup := if s.sub.since.None? then Events([]) else CatchUpFrom(s.ring, s.sub.since.value);
      if catchup.TooOld? then s.(sub := Refused)
      else s.(sub := Streaming(s.sub.from, s.sub.cursor, catchup.events, false, []))
    case PushCatchUp =>
      s.(sub := s.sub.(caughtUp := true, got := s.sub.got + Strip(s.session, s.sub.catchup)))
    case Receive =>
      if Lagging(s) then s.(sub := s.sub.(cursor := |s.sent| - CHANNEL_CAP, got := s.sub.got + [Resync(|s.history|)]))
      else s.(sub := s.sub.(cursor := s.sub.cursor + 1, got := s.sub.got + Strip(s.session, s.sent[s.sub.cursor])))
  }

  function Run(cap: nat, session: nat, steps: seq<Step>): Option<System> {
    if steps == [] then Some(Init(cap, session))
    else
      var before := Run(cap, session, steps[..|steps| - 1]);
      if before.Some? && Enabled(before.value, steps[|steps| - 1])
      then Some(Apply(before.value, steps[|steps| - 1])) else None
  }

  // ------------------------------------------------------------ invariant

  /** `e` is in some batch at index `lo` or later. */
  ghost predicate InSome(batches: seq<seq<Event>>, lo: nat, e: Event) {
    exists k :: lo <= k < |batches| && e in batches[k]
  }

  /** `e` is still on its way to a receiver at `cursor`. */
  ghost predicate OnItsWay(s: System, cursor: nat, e: Event) {
    InSome(s.unsent, 0, e) || InSome(s.sent, cursor, e)
  }

  /** The subscriber was told to start over after the first `n` events had been published. */
  ghost predicate ResyncedAfter(got: seq<Msg>, n: nat) {
    exists at :: n <= at && Resync(at) in got
  }

  /** `e` reached the subscriber, or is its own, or was replaced by a resync sent after it. */
  ghost predicate Accounted(s: System, got: seq<Msg>, e: Event) {
    Deliver(e) in got || ResyncedAfter(got, e.num) || e.origin == Some(s.session)
  }

  ghost predicate NoGap(s: System) {
    match s.sub
    case Opened(since, from, cursor) =>
      && cursor <= |s.sent| && (since.Some? ==> from == since.value)
      && (since.None? ==> from <= |s.history|
                          && forall i | from <= i < |s.history| :: OnItsWay(s, cursor, s.history[i]))
    case Streaming(from, cursor, catchup, caughtUp, got) =>
      && cursor <= |s.sent|
      && (forall i | from <= i < |s.history| ::
            || OnItsWay(s, cursor, s.history[i])
            || Accounted(s, got, s.history[i])
            || (!caughtUp && s.history[i] in catchup))
    case _ => true
  }

  /** Nothing is made up: what is delivered was published, by somebody else. */
  ghost predicate Genuine(s: System) {
    && (forall k, e | 0 <= k < |s.unsent| && e in s.unsent[k] :: e in s.history)
    && (forall k, e | 0 <= k < |s.sent| && e in s.sent[k] :: e in s.history)
    && (s.sub.Streaming? ==>
          && (forall e | e in s.sub.catchup :: e in s.history)
          && (forall e | Deliver(e) in s.sub.got :: e in s.history && e.origin != Some(s.session))
          && (forall at: nat | Resync(at) in s.sub.got :: at <= |s.history|))
  }

  ghost predicate Inv(s: System) {
    RingOf(s.ring, s.history) && NoGap(s) && Genuine(s)
  }

  lemma {:induction false} StripKeepsOthers(session: nat, events: seq<Event>, e: Event)
    ensures Deliver(e) in Strip(session, events) <==> e in events && e.origin != Some(session)
  {
    if events != [] {
      StripKeepsOthers(session, events[..|events| - 1], e);
      assert events == events[..|events| - 1] + [events[|events| - 1]];
    }
  }

  lemma {:induction false} StripOnlyDelivers(session: nat, events: seq<Event>)
    ensures forall m | m in Strip(session, events) :: m.Deliver?
  {
    if events != [] { StripOnlyDelivers(session, events[..|events| - 1]); }
  }

  // ------------------------------------------------------- on its way, kept

  lemma AppendKeepsWay(s: System, raws: seq<Raw>, cursor: nat, e: Event)
    requires raws != [] && (OnItsWay(s, cursor, e) || e in Batch(s.ring, raws))
    ensures OnItsWay(Apply(s, Append(raws)), cursor, e)
  {
    var v := Apply(s, Append(raws));
    if e in Batch(s.ring, raws) {
      assert v.unsent[|s.unsent|] == Batch(s.ring, raws);
    } else if InSome(s.unsent, 0, e) {
      var k :| 0 <= k < |s.unsent| && e in s.unsent[k];
      assert v.unsent[k] == s.unsent[k];
    }
  }

  lemma SendKeepsWay(s: System, i: nat, cursor: nat, e: Event)
    requires i < |s.unsent| && cursor <= |s.sent| && OnItsWay(s, cursor, e)
    ensures OnItsWay(Apply(s, Send(i)), cursor, e)
  {
    var v := Apply(s, Send(i));
    if InSome(s.sent, cursor, e) {
      var k :| cursor <= k < |s.sent| && e in s.sent[k];
      assert v.sent[k] == s.sent[k];
    } else {
      var k :| 0 <= k < |s.unsent| && e in s.unsent[k];
      if k == i {
        assert v.sent[|s.sent|] == s.unsent[i];
      } else {
        var j := if k < i then k else k - 1;
        assert v.unsent[j] == s.unsent[k];
      }
    }
  }

  lemma KeepsAppend(s: System, raws: seq<Raw>)
    requires Inv(s) && raws != []
    ensures Inv(Apply(s, Append(raws)))
  {
    var v := Apply(s, Append(raws));
    AppendKeepsRing(s.ring, s.history, raws);
    if s.sub.Opened? || s.sub.Streaming? {
      forall i | s.sub.from <= i < |v.history| && (i < |s.history| ==> OnItsWay(s, s.sub.cursor, s.history[i]))
        ensures OnItsWay(v, s.sub.cursor, v.history[i])
      {
        if i < |s.history| {
          assert v.history[i] == s.history[i];
        } else {
          assert v.history[i] == Batch(s.ring, raws)[i - |s.history|];
        }
        AppendKeepsWay(s, raws, s.sub.cursor, v.history[i]);
      }
    }
    assert Genuine(v);
  }

  lemma KeepsSend(s: System, i: nat)
    requires Inv(s) && i < |s.unsent|
    ensures Inv(Apply(s, Send(i)))
  {
    var v := Apply(s, Send(i));
    if s.sub.Opened? || s.sub.Streaming? {
      forall n | 0 <= n < |s.history| && OnItsWay(s, s.sub.cursor, s.history[n])
        ensures OnItsWay(v, s.sub.cursor, v.history[n])
      {
        SendKeepsWay(s, i, s.sub.cursor, s.history[n]);
      }
    }
    forall k, e | 0 <= k < |v.unsent| && e in v.unsent[k] ensures e in v.history {
      assert v.unsent[k] == s.unsent[if k < i then k else k + 1];
    }
  }

  lemma KeepsReadLog(s: System)
    requires Inv(s) && s.sub.Opened?
    ensures Inv(Apply(s, ReadLog))
  {
    var v := Apply(s, ReadLog);
    if s.sub.since.Some? {
      TooOldExactly(s.ring, s.history, s.sub.since.value);
      if v.sub.Streaming? {
        forall i | v.sub.from <= i < |s.history| ensures s.history[i] in v.sub.catchup {
          assert s.history[i] in s.history;
        }
      }
    }
  }

  lemma KeepsPushCatchUp(s: System)
    requires Inv(s) && Enabled(s, PushCatchUp)
    ensures Inv(Apply(s, PushCatchUp))
  {
    var v := Apply(s, PushCatchUp);
    StripOnlyDelivers(s.session, s.sub.catchup);
    forall e ensures Deliver(e) in v.sub.got <==>
                     Deliver(e) in s.sub.got || (e in s.sub.catchup && e.origin != Some(s.session)) {
      StripKeepsOthers(s.session, s.sub.catchup, e);
    }
    forall i | v.sub.from <= i < |v.history|
      ensures OnItsWay(v, v.sub.cursor, v.history[i]) || Accounted(v, v.sub.got, v.history[i])
    {
      if Accounted(s, s.sub.got, s.history[i]) { assert Accounted(v, v.sub.got, v.history[i]); }
      if OnItsWay(s, s.sub.cursor, s.history[i]) { assert OnItsWay(v, v.sub.cursor, v.history[i]); }
    }
  }

  lemma KeepsReceive(s: System)
    requires Inv(s) && Enabled(s, Receive)
    ensures Inv(Apply(s, Receive))
  {
    var v := Apply(s, Receive);
    if Lagging(s) {
      assert v.sub.got[|s.sub.got|] == Resync(|s.history|);
      forall i | v.sub.from <= i < |v.history| ensures Accounted(v, v.sub.got, v.history[i]) {
        assert s.history[i].num <= |s.history| && Resync(|s.history|) in v.sub.got;
      }
    } else {
      var c := s.sub.cursor;
      StripOnlyDelivers(s.session, s.sent[c]);
      forall e ensures Deliver(e) in v.sub.got <==>
                       Deliver(e) in s.sub.got || (e in s.sent[c] && e.origin != Some(s.session)) {
        StripKeepsOthers(s.session, s.sent[c], e);
      }
      forall i | v.sub.from <= i < |v.history|
        ensures OnItsWay(v, v.sub.cursor, v.history[i]) || Accounted(v, v.sub.got, v.history[i])
      {
        var e := s.history[i];
        if Accounted(s, s.sub.got, e) {
          assert Accounted(v, v.sub.got, e);
        } else if InSome(s.unsent, 0, e) {
          assert InSome(v.unsent, 0, e);
        } else {
          var k :| c <= k < |s.sent| && e in s.sent[k];
          if k > c { assert InSome(v.sent, c + 1, e); }
        }
      }
    }
  }

  lemma KeepsInv(s: System, step: Step)
    requires Inv(s) && Enabled(s, step)
    ensures Inv(Apply(s, step))
  {
    match step
    case Append(raws) => KeepsAppend(s, raws);
    case Send(i) => KeepsSend(s, i);
    case Open(_) =>
    case ReadLog => KeepsReadLog(s);
    case PushCatchUp => KeepsPushCatchUp(s);
    case Receive => KeepsReceive(s);
  }

  lemma {:induction false} EveryRun(cap: nat, session: nat, steps: seq<Step>)
    requires Run(cap, session, steps).Some?
    ensures Inv(Run(cap, session, steps).value)
  {
    if steps != [] {
      EveryRun(cap, session, steps[..|steps| - 1]);
      KeepsInv(Run(cap, session, steps[..|steps| - 1]).value, steps[|steps| - 1]);
    }
  }

  /** Nothing is between the hub and the subscriber. */
  ghost predicate Drained(s: System) {
    s.sub.Streaming? && s.sub.caughtUp && s.unsent == [] && s.sub.cursor == |s.sent|
  }

  /** In every run, once everything published has been sent and received, the subscriber has got
      every event numbered above the point it asked for (its own writes excepted), or was told to
      start over after that event; and it never got anything that was not published. */
  lemma StreamHasNoGap(cap: nat, session: nat, steps: seq<Step>)
    requires Run(cap, session, steps).Some? && Drained(Run(cap, session, steps).value)
    ensures var s := Run(cap, session, steps).value;
            && (forall i | s.sub.from <= i < |s.history| ::
                  || (exists at :: i < at && Resync(at) in s.sub.got)
                  || Deliver(s.history[i]) in s.sub.got || s.history[i].origin == Some(session))
            && (forall e | Deliver(e) in s.sub.got :: e in s.history && e.origin != Some(session))
            && (forall at: nat | Resync(at) in s.sub.got :: at <= |s.history|)
  {
    EveryRun(cap, session, steps);
    SessionFixed(cap, session, steps);
    var s := Run(cap, session, steps).value;
    forall i | s.sub.from <= i < |s.history| ensures Accounted(s, s.sub.got, s.history[i]) {
      assert !OnItsWay(s, s.sub.cursor, s.history[i]);
    }
  }

  lemma {:induction false} SessionFixed(cap: nat, session: nat, steps: seq<Step>)
    requires Run(cap, session, steps).Some?
    ensures Run(cap, session, steps).value.session == session
  {
    if steps != [] { SessionFixed(cap, session, steps[..|steps| - 1]); }
  }

  /** In every reachable state, refusing a subscriber means an event it needs has left the ring. */
  lemma RefusedOnlyIfLost(cap: nat, session: nat, steps: seq<Step>)
    requires Run(cap, session, steps).Some? && Enabled(Run(cap, session, steps).value, ReadLog)
    ensures var s := Run(cap, session, steps).value;
            Apply(s, ReadLog).sub.Refused?
            <==> s.sub.since.Some? && exists i | s.sub.since.value <= i < |s.history| :: s.history[i] !in s.ring.log
  {
    EveryRun(cap, session, steps);
    var s := Run(cap, session, steps).value;
    if s.sub.since.Some? { TooOldExactly(s.ring, s.history, s.sub.since.value); }
  }

  // ------------------------------------------------------------- resyncs

  /** Step `k` receives while more than 256 batches wait between the subscriber and the last one sent. */
  ghost predicate LagsAt(cap: nat, session: nat, steps: seq<Step>, k: nat) {
    && k < |steps| && steps[k] == Receive
    && var s := Run(cap, session, steps[..k]);
       s.Some? && s.value.sub.Streaming? && |s.value.sent| - s.value.sub.cursor > 256
  }

  ghost predicate EverLags(cap: nat, session: nat, steps: seq<Step>) {
    exists k :: LagsAt(cap, session, steps, k)
  }

  ghost predicate Resynced(s: System) {
    s.sub.Streaming? && exists at :: Resync(at) in s.sub.got
  }

  lemma EverLagsLast(cap: nat, session: nat, steps: seq<Step>)
    requires steps != []
    ensures EverLags(cap, session, steps)
            <==> EverLags(cap, session, steps[..|steps| - 1]) || LagsAt(cap, session, steps, |steps| - 1)
  {
    var init := steps[..|steps| - 1];
    forall k | 0 <= k < |init| ensures LagsAt(cap, session, init, k) <==> LagsAt(cap, session, steps, k) {
      assert init[..k] == steps[..k] && init[k] == steps[k];
    }
  }

  /** One step adds a resync only by receiving while more than 256 batches wait, and then it does. */
  lemma ResyncStep(s: System, step: Step)
    requires Enabled(s, step)
    ensures var v := Apply(s, step);
            Resynced(v) <==> Resynced(s) || (step == Receive && |s.sent| - s.sub.cursor > 256)
  {
    var v := Apply(s, step);
    match step
    case PushCatchUp =>
      StripOnlyDelivers(s.session, s.sub.catchup);
      assert forall at: nat :: Resync(at) in v.sub.got <==> Resync(at) in s.sub.got;
    case Receive =>
      if |s.sent| - s.sub.cursor > 256 {
        assert v.sub.got[|s.sub.got|] == Resync(|s.history|);
      } else {
        StripOnlyDelivers(s.session, s.sent[s.sub.cursor]);
        assert forall at: nat :: Resync(at) in v.sub.got <==> Resync(at) in s.sub.got;
      }
    case _ =>
  }

  /** A subscriber that fell behind is told so and still gets the last 256 batches. */
  lemma LastBatchesStay(s: System)
    requires Enabled(s, Receive) && |s.sent| - s.sub.cursor > 256
    ensures var v := Apply(s, Receive);
            && v.sub.got == s.sub.got + [Resync(|s.history|)]
            && |v.sent[v.sub.cursor..]| == 256 && v.sent == s.sent
  {
  }

  /** In every run the subscriber is told to start over if and only if it once received with more than
      256 batches waiting. */
  lemma {:induction false} ResyncExactly(cap: nat, session: nat, steps: seq<Step>)
    requires Run(cap, session, steps).Some?
    ensures Resynced(Run(cap, session, steps).value) <==> EverLags(cap, session, steps)
  {
    if steps != [] {
      var init, step := steps[..|steps| - 1], steps[|steps| - 1];
      ResyncExactly(cap, session, init);
      EverLagsLast(cap, session, steps);
      ResyncStep(Run(cap, session, init).value, step);
    }
  }

  /** A subscriber that keeps up gets every event: if it never received with more than 256 batches
      waiting, then once drained it holds every owed event that is not its own, and no resync. */
  lemma KeepingUpGetsEverything(cap: nat, session: nat, steps: seq<Step>)
    requires Run(cap, session, steps).Some? && Drained(Run(cap, session, steps).value)
    requires forall k | 0 <= k < |steps| && steps[k] == Receive && Run(cap, session, steps[..k]).Some? ::
               var s := Run(cap, session, steps[..k]).value;
               s.sub.Streaming? ==> |s.sent| - s.sub.cursor <= 256
    ensures var s := Run(cap, session, steps).value;
            && (forall at: nat :: Resync(at) !in s.sub.got)
            && (forall i | s.sub.from <= i < |s.history| ::
                  Deliver(s.history[i]) in s.sub.got || s.history[i].origin == Some(session))
  {
    ResyncExactly(cap, session, steps);
    StreamHasNoGap(cap, session, steps);
    assert !EverLags(cap, session, steps);
  }
}
