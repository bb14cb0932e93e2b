/** What a caller of the kernel transport is told, over every run: the daemon's reply, unless there
    was an abort or the caller was killed. About `kernel/alloyfs/alloyfs_conn.c`. */
module KernelOutcomes {
  import opened Common
  import opened KernelConn
  import opened KernelConnProof

  /** A request is answered with an abort only after one, and its caller leaves without an answer only
      after a fatal signal. */
  ghost predicate Told(steps: seq<Step>, id: Id, o: Op) {
    && (o.req.answer == Some(Aborted) ==> Abort in steps)
    && (o.caller == Returned(Some(Aborted)) ==> Abort in steps)
    && (!o.caller.Waiting? && !(o.caller.Returned? && o.caller.result.Some?) ==> Signal(id) in steps)
  }

  /** A writer past its completion has stored the reply it carried. */
  ghost predicate RepliedBy(s: State, t: Tid) {
    t in s.writers && s.writers[t].Finishing? && s.writers[t].id in s.ops ==>
      s.ops[s.writers[t].id].req.answer == Some(Reply(s.ops[s.writers[t].id].req.unique))
  }

  ghost predicate Outcomes(steps: seq<Step>, s: State) {
    && (forall id | id in s.ops :: Told(steps, id, s.ops[id]))
    && (forall t :: RepliedBy(s, t))
  }

  /** Nobody answers a request that a writer is finishing: it is on no queue and has no other writer. */
  lemma FinishedIsSettled(s: State, t: Tid)
    requires Inv(s) && t in s.writers && s.writers[t].Finishing?
    ensures !Queued(s, s.writers[t].id)
    ensures forall u | u in s.writers && s.writers[u].id == s.writers[t].id :: u == t
  {
    var id := s.writers[t].id;
    assert Good(ViewOf(s, id));
    assert t in FinishingOf(s, id);
    CardRemove(FinishingOf(s, id), FinishingOf(s, id) - {t}, t);
    assert FinishingOf(s, id) == {t} && AnsweringOf(s, id) == {};
    assert forall u | u in s.writers && s.writers[u].id == id :: u in FinishingOf(s, id) || u in AnsweringOf(s, id);
  }

  lemma WriterHasRequest(s: State, t: Tid)
    requires Inv(s) && t in s.writers
    ensures s.writers[t].id in s.ops && s.ops[s.writers[t].id].req.live
  {
    var id := s.writers[t].id;
    if s.writers[t].Found? {
      assert t in AnsweringOf(s, id);
      CardRemove(AnsweringOf(s, id), AnsweringOf(s, id) - {t}, t);
    } else {
      assert t in FinishingOf(s, id);
      CardRemove(FinishingOf(s, id), FinishingOf(s, id) - {t}, t);
    }
    Alive(s, id);
  }

  lemma ToldLater(steps: seq<Step>, step: Step, id: Id, o: Op)
    requires Told(steps, id, o)
    ensures Told(steps + [step], id, o)
  {
  }

  lemma AbortOutcomes(steps: seq<Step>, s: State)
    requires Inv(s) && Outcomes(steps, s)
    ensures Outcomes(steps + [Abort], Apply(s, Abort))
  {
    var ids, v := s.pending + s.processing, Apply(s, Abort);
    forall x | x in ids ensures x in s.ops && s.ops[x].req.live {
      assert Queued(s, x);
      Alive(s, x);
    }
    FailAllAt(s.(connected := false, pending := [], processing := []), ids);
    assert Abort in steps + [Abort];
    forall id | id in v.ops ensures Told(steps + [Abort], id, v.ops[id]) {
      ToldLater(steps, Abort, id, s.ops[id]);
    }
    forall t ensures RepliedBy(v, t) {
      assert RepliedBy(s, t);
      if t in s.writers && s.writers[t].Finishing? { FinishedIsSettled(s, t); }
    }
  }

  lemma CompleteOutcomes(steps: seq<Step>, s: State, t: Tid)
    requires Inv(s) && Outcomes(steps, s) && Enabled(s, Complete(t))
    ensures Outcomes(steps + [Complete(t)], Apply(s, Complete(t)))
  {
    var v := Apply(s, Complete(t));
    forall id | id in v.ops ensures Told(steps + [Complete(t)], id, v.ops[id]) {
      ToldLater(steps, Complete(t), id, s.ops[id]);
    }
    WriterHasRequest(s, t);
    forall u ensures RepliedBy(v, u) {
      assert RepliedBy(s, u);
      if u != t && u in s.writers && s.writers[u].Finishing? { FinishedIsSettled(s, u); }
    }
  }

  predicate IsDeviceStep(step: Step) {
    step.ReadTake? || step.CopyDone? || step.CopyFault? || step.FaultPut? || step.WriteTake? || step.WriterPut?
  }

  /** `n` is `o` with the same answer and number, moved on by its caller as `step` says. */
  ghost predicate MovedOn(o: Op, n: Op, step: Step, id: Id) {
    && n.req.answer == o.req.answer && n.req.unique == o.req.unique
    && (n.caller == o.caller
        || (step == Signal(id) && !n.caller.Returned?)
        || (step == Return(id) && o.req.answer.Some? && n.caller == Returned(o.req.answer))
        || (!o.caller.Waiting? && !o.caller.Returned? && (n.caller.Returned? ==> n.caller.result == None)))
  }

  lemma TouchAt(s: State, x: Id, f: Op -> Op, id: Id)
    requires id in Touch(s, x, f).ops
    ensures id in s.ops && (Touch(s, x, f).ops[id] == s.ops[id] || (id == x && Touch(s, x, f).ops[id] == f(s.ops[id])))
  {
  }

  lemma DeviceOp(s: State, step: Step, id: Id)
    requires Enabled(s, step) && IsDeviceStep(step) && id in Apply(s, step).ops
    ensures id in s.ops && MovedOn(s.ops[id], Apply(s, step).ops[id], step, id)
  {
    match step
    case ReadTake(t) =>
      var x := s.pending[0];
      TouchAt(s.(pending := s.pending[1..], processing := s.processing + [x], readers := s.readers[t := Copying(x)]), x, GetRef, id);
    case CopyDone(t) => TouchAt(s.(readers := s.readers - {t}), s.readers[t].id, PutOnly, id);
    case FaultPut(t) => TouchAt(s.(readers := s.readers - {t}), s.readers[t].id, PutOnly, id);
    case WriterPut(t) => TouchAt(s.(writers := s.writers - {t}), s.writers[t].id, PutOnly, id);
    case _ =>
  }

  lemma InterruptOp(s: State, step: Step, id: Id)
    requires (step.Signal? || step.Reclaim?) && Enabled(s, step) && id in Apply(s, step).ops
    ensures id in s.ops && MovedOn(s.ops[id], Apply(s, step).ops[id], step, id)
  {
    match step
    case Signal(x) => TouchAt(s, x, (o: Op) => o.(caller := Interrupted), id);
    case Reclaim(x) =>
      if Queued(s, x) {
        TouchAt(Unlink(s, x), x, (o: Op) => o.(caller := Holding), id);
      } else {
        TouchAt(s, x, (o: Op) => o.(caller := Leaving), id);
      }
  }

  lemma LeaveOp(s: State, step: Step, id: Id)
    requires (step.DropQueueRef? || step.Leave? || step.Return?) && Enabled(s, step) && id in Apply(s, step).ops
    ensures id in s.ops && MovedOn(s.ops[id], Apply(s, step).ops[id], step, id)
  {
    match step
    case DropQueueRef(x) => TouchAt(s, x, PutAs(Leaving), id);
    case Leave(x) => TouchAt(s, x, PutAs(Returned(None)), id);
    case Return(x) => TouchAt(s, x, PutAs(Returned(s.ops[x].req.answer)), id);
  }

  /** Steps other than completing and aborting leave every answer alone. */
  lemma QuietOp(s: State, step: Step, id: Id)
    requires Enabled(s, step) && !step.Abort? && !step.Complete? && id in Apply(s, step).ops
    ensures var n := Apply(s, step).ops[id];
            if id !in s.ops then n.req.answer == None && n.caller == Waiting else MovedOn(s.ops[id], n, step, id)
  {
    if IsDeviceStep(step) {
      DeviceOp(s, step, id);
    } else if step.Signal? || step.Reclaim? {
      InterruptOp(s, step, id);
    } else if !step.Submit? {
      LeaveOp(s, step, id);
    }
  }

  lemma QuietTold(steps: seq<Step>, s: State, step: Step, id: Id)
    requires Enabled(s, step) && !step.Abort? && !step.Complete? && id in Apply(s, step).ops
    requires id in s.ops ==> Told(steps, id, s.ops[id])
    ensures Told(steps + [step], id, Apply(s, step).ops[id])
  {
    QuietOp(s, step, id);
    assert step in steps + [step] && forall x | x in steps :: x in steps + [step];
  }

  lemma QuietWriters(s: State, step: Step, t: Tid)
    requires Enabled(s, step) && !step.Abort? && !step.Complete?
    ensures var v := Apply(s, step);
            t in v.writers && v.writers[t].Finishing? ==> t in s.writers && s.writers[t] == v.writers[t]
  {
  }

  /** Steps that neither answer a request nor add a finishing writer. */
  lemma QuietOutcomes(steps: seq<Step>, s: State, step: Step)
    requires Inv(s) && Outcomes(steps, s) && Enabled(s, step) && !step.Abort? && !step.Complete?
    ensures Outcomes(steps + [step], Apply(s, step))
  {
    var v := Apply(s, step);
    forall id | id in v.ops ensures Told(steps + [step], id, v.ops[id]) { QuietTold(steps, s, step, id); }
    forall t ensures RepliedBy(v, t) {
      assert RepliedBy(s, t);
      QuietWriters(s, step, t);
      if t in s.writers {
        WriterHasRequest(s, t);
        if s.writers[t].id in v.ops { QuietOp(s, step, s.writers[t].id); }
      }
    }
  }

  lemma {:induction false} EveryOutcome(steps: seq<Step>)
    requires Run(steps).Some?
    ensures Outcomes(steps, Run(steps).value)
  {
    if steps != [] {
      var init, step := steps[..|steps| - 1], steps[|steps| - 1];
      assert steps == init + [step];
      EveryRun(init);
      EveryOutcome(init);
      var s := Run(init).value;
      if step.Abort? {
        AbortOutcomes(init, s);
      } else if step.Complete? {
        CompleteOutcomes(init, s, step.t);
      } else {
        QuietOutcomes(init, s, step);
      }
    }
  }

  /** In every run a caller that returned got the reply to its own request, unless the run has an abort
      or a signal for it: an abort is reported only after one, an interruption only after a signal. */
  lemma CallersAreToldTheTruth(steps: seq<Step>, id: Id)
    requires Run(steps).Some? && id in Run(steps).value.ops && Run(steps).value.ops[id].caller.Returned?
    ensures var o := Run(steps).value.ops[id];
            && (o.caller.result == Some(Aborted) ==> Abort in steps)
            && (o.caller.result == None ==> Signal(id) in steps)
            && (Abort !in steps && Signal(id) !in steps ==> o.caller.result == Some(Reply(o.req.unique)))
  {
    EveryOutcome(steps);
    RepliesReachTheirCaller(steps, id);
    assert Told(steps, id, Run(steps).value.ops[id]);
  }

  /** In every run a request whose writer is past the completion carries the reply to its own number. */
  lemma FinishedCarriesReply(steps: seq<Step>, t: Tid)
    requires Run(steps).Some?
    requires t in Run(steps).value.writers && Run(steps).value.writers[t].Finishing?
    ensures var s := Run(steps).value; var id := s.writers[t].id;
            id in s.ops && s.ops[id].req.answer == Some(Reply(s.ops[id].req.unique))
  {
    EveryRun(steps);
    EveryOutcome(steps);
    var s := Run(steps).value;
    WriterHasRequest(s, t);
    assert RepliedBy(s, t);
  }

  /** A request whose copy to the daemon faulted is the next to be read again, if it is still wanted. */
  lemma FaultedIsReadNext(s: State, t: Tid)
    requires Inv(s) && Enabled(s, CopyFault(t)) && Queued(s, s.readers[t].id)
    ensures var v := Apply(s, CopyFault(t)); v.pending != [] && v.pending[0] == s.readers[t].id
    ensures s.readers[t].id !in Apply(s, CopyFault(t)).processing
  {
  }

  /** Requests are read in the order they were submitted. */
  lemma SubmittedLastReadFirst(s: State, id: Id, t: Tid)
    requires Inv(s)
    ensures Enabled(s, Submit(id)) ==> Apply(s, Submit(id)).pending == s.pending + [id]
    ensures Enabled(s, ReadTake(t)) ==>
              var v := Apply(s, ReadTake(t));
              s.pending == [v.readers[t].id] + v.pending && v.processing == s.processing + [v.readers[t].id]
  {
    if Enabled(s, ReadTake(t)) {
      assert Queued(s, s.pending[0]);
      Alive(s, s.pending[0]);
    }
  }
}
