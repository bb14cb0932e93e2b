/** Why a request over the multiplexer ended without a response, over every run.
    About `crates/alloyfs-transport/src/mux.rs`. */
module MuxOutcomes {
  import opened Common
  import opened Mux

  /** An outcome other than a response has its reason in the run. */
  ghost predicate Explained(steps: seq<Step>, s: System, t: nat) {
    t in s.callers && s.callers[t].Ended? ==>
      match s.callers[t].outcome
      case Got(_, _) => true
      case Closed => s.closed || SendFailed(t) in steps
      case TimedOut => Timeout(t) in steps
      case Abandoned => Abandon(t) in steps
  }

  /** While its caller waits, a sender is dropped only by the teardown. */
  ghost predicate DroppedByTeardown(s: System, t: nat) {
    t in s.callers && HasNumber(s.callers[t]) && Get(s.channels, s.callers[t].id) == Some(Channel(t, Dropped)) ==> s.closed
  }

  ghost predicate Reasons(steps: seq<Step>, s: System) {
    forall t :: Explained(steps, s, t) && DroppedByTeardown(s, t)
  }

  lemma KeepsReasons(steps: seq<Step>, s: System, step: Step, t: nat)
    requires Inv(s) && Reasons(steps, s) && Enabled(s, step)
    ensures Explained(steps + [step], Apply(s, step), t)
    ensures DroppedByTeardown(Apply(s, step), t)
  {
    assert Explained(steps, s, t) && DroppedByTeardown(s, t) && Owned(s, t);
    assert step in steps + [step] && forall x | x in steps :: x in steps + [step];
    match step
    case Call(u) => assert Owned(s, u);
    case TakeNumber(u) => assert Reachable(s, s.nextId);
    case Recheck(u) => assert Owned(s, u);
    case SendFailed(u) => assert Owned(s, u);
    case Timeout(u) => assert Owned(s, u);
    case Wake(u) => assert Owned(s, u) && DroppedByTeardown(s, u);
    case ClearOne(id) => assert Swept(s, id);
    case _ =>
  }

  lemma {:induction false} EveryReason(steps: seq<Step>)
    requires Run(steps).Some?
    ensures Reasons(steps, Run(steps).value)
  {
    if steps != [] {
      var init, step := steps[..|steps| - 1], steps[|steps| - 1];
      assert steps == init + [step];
      EveryRun(init);
      EveryReason(init);
      forall t ensures Explained(steps, Run(steps).value, t) && DroppedByTeardown(Run(steps).value, t) {
        KeepsReasons(init, Run(init).value, step, t);
      }
    }
  }

  /** In every run a request that ended got a response, unless the connection closed, sending failed, it
      timed out or its caller gave up; and each of those is reported only when it happened. */
  lemma RequestsEndForAReason(steps: seq<Step>, t: nat)
    requires Run(steps).Some? && t in Run(steps).value.callers && Run(steps).value.callers[t].Ended?
    ensures var s := Run(steps).value; var o := s.callers[t].outcome;
            && (o == Closed ==> s.closed || SendFailed(t) in steps)
            && (o == TimedOut ==> Timeout(t) in steps)
            && (o == Abandoned ==> Abandon(t) in steps)
            && (!s.closed && SendFailed(t) !in steps && Timeout(t) !in steps && Abandon(t) !in steps ==> o.Got?)
  {
    EveryReason(steps);
    assert Explained(steps, Run(steps).value, t);
  }
}
