/** Every step of the kernel transport keeps its invariant, hence every run does. */
module KernelConnProof {
  import opened Common
  import opened KernelConn

  // --------------------------------------------------------------- helpers

  lemma CardAdd(s: set<Tid>, v: set<Tid>, t: Tid)
    requires t !in s && v == s + {t}
    ensures |v| == |s| + 1
  {
  }

  lemma CardRemove(s: set<Tid>, v: set<Tid>, t: Tid)
    requires t in s && v == s - {t}
    ensures |v| == |s| - 1
  {
  }

  lemma {:induction false} WithoutDistinct(q: seq<Id>, id: Id)
    requires Distinct(q)
    ensures Distinct(Without(q, id))
  {
    if q != [] {
      assert q == [q[0]] + q[1..];
      assert forall x | x in q[1..] :: x != q[0];
      WithoutDistinct(q[1..], id);
      var r := Without(q[1..], id);
      assert forall i | 0 <= i < |r| :: r[i] in r;
    }
  }

  lemma DistinctParts(p: seq<Id>, q: seq<Id>)
    ensures Distinct(p + q) <==> Distinct(p) && Distinct(q) && forall x | x in p :: x !in q
  {
    var r := p + q;
    assert forall i | 0 <= i < |p| :: r[i] == p[i] && p[i] in p;
    assert forall i | 0 <= i < |q| :: r[|p| + i] == q[i] && q[i] in q;
    if Distinct(p) && Distinct(q) && forall x | x in p :: x !in q {
      forall i, j | 0 <= i < j < |r| ensures r[i] != r[j] {
        if j >= |p| { assert r[j] == q[j - |p|]; }
      }
    }
  }

  // ------------------------------------------------- touching one request

  /** A step that changes one request's record by `f` and moves threads and queues only with
      respect to that request. */
  ghost predicate At(s: State, v: State, id: Id) {
    && v.connected == s.connected && v.nextUnique == s.nextUnique
    && id in s.ops && id in v.ops && v.ops == s.ops[id := v.ops[id]]
    && v.ops[id].req.unique == s.ops[id].req.unique
    && (forall x | x != id :: ViewOf(v, x) == ViewOf(s, x))
  }

  ghost predicate AnswerSound(s: State, v: State, id: Id)
    requires id in s.ops && id in v.ops
  {
    v.ops[id].req.answer == s.ops[id].req.answer || v.ops[id].req.answer == Some(Aborted)
    || v.ops[id].req.answer == Some(Reply(s.ops[id].req.unique))
  }

  ghost predicate NoNewWriters(s: State, v: State) {
    forall t | t in v.writers && v.writers[t].Found? :: t in s.writers && s.writers[t] == v.writers[t]
  }

  lemma UniquesKept(s: State, v: State, id: Id)
    requires UniquesSound(s) && At(s, v, id) && AnswerSound(s, v, id) && NoNewWriters(s, v)
    ensures UniquesSound(v)
  {
  }

  lemma Alive(s: State, id: Id)
    requires Inv(s) && Claims(ViewOf(s, id)) > 0
    ensures id in s.ops && s.ops[id].req.live
  {
    assert Good(ViewOf(s, id));
  }

  lemma InvAt(s: State, v: State, id: Id)
    requires Inv(s) && At(s, v, id) && AnswerSound(s, v, id) && NoNewWriters(s, v)
    requires v.bad == s.bad && Good(ViewOf(v, id))
    requires Distinct(v.pending + v.processing) && (!v.connected ==> v.pending == [] && v.processing == [])
    ensures Inv(v)
  {
    UniquesKept(s, v, id);
    forall x ensures Good(ViewOf(v, x)) {
      if x != id { assert Good(ViewOf(s, x)); }
    }
  }

  lemma CallersStep(s: State, v: State, id: Id)
    requires id in s.ops && id in v.ops && v == s.(ops := s.ops[id := v.ops[id]])
    requires v.ops[id].req.unique == s.ops[id].req.unique
    ensures At(s, v, id) && ViewOf(v, id) == ViewOf(s, id).(op := Some(v.ops[id]))
    ensures NoNewWriters(s, v)
  {
    assert forall x :: ReadersOf(v, x) == ReadersOf(s, x);
    assert forall x :: AnsweringOf(v, x) == AnsweringOf(s, x) && FinishingOf(v, x) == FinishingOf(s, x);
  }

  // --------------------------------------------------------------- callers

  lemma KeepsSignal(s: State, id: Id)
    requires Inv(s) && Enabled(s, Signal(id))
    ensures Inv(Apply(s, Signal(id)))
  {
    Alive(s, id);
    var v := Apply(s, Signal(id));
    CallersStep(s, v, id);
    assert Good(ViewOf(s, id));
    InvAt(s, v, id);
  }

  lemma KeepsDropQueueRef(s: State, id: Id)
    requires Inv(s) && Enabled(s, DropQueueRef(id))
    ensures Inv(Apply(s, DropQueueRef(id)))
  {
    Alive(s, id);
    var v := Apply(s, DropQueueRef(id));
    CallersStep(s, v, id);
    assert Good(ViewOf(s, id));
    InvAt(s, v, id);
  }

  lemma KeepsLeave(s: State, id: Id)
    requires Inv(s) && Enabled(s, Leave(id))
    ensures Inv(Apply(s, Leave(id)))
  {
    Alive(s, id);
    var v := Apply(s, Leave(id));
    CallersStep(s, v, id);
    assert Good(ViewOf(s, id));
    InvAt(s, v, id);
  }

  lemma KeepsReturn(s: State, id: Id)
    requires Inv(s) && Enabled(s, Return(id))
    ensures Inv(Apply(s, Return(id)))
  {
    Alive(s, id);
    var v := Apply(s, Return(id));
    CallersStep(s, v, id);
    assert Good(ViewOf(s, id));
    InvAt(s, v, id);
  }

  lemma UnlinkQueues(s: State, id: Id)
    requires Distinct(s.pending + s.processing)
    ensures var v := Unlink(s, id); Distinct(v.pending + v.processing)
    ensures forall x :: Queued(Unlink(s, id), x) <==> Queued(s, x) && x != id
  {
    DistinctParts(s.pending, s.processing);
    WithoutDistinct(s.pending, id);
    WithoutDistinct(s.processing, id);
    DistinctParts(Without(s.pending, id), Without(s.processing, id));
  }

  lemma SameThreads(s: State, v: State)
    requires v.readers == s.readers && v.writers == s.writers
    ensures forall x :: ReadersOf(v, x) == ReadersOf(s, x)
    ensures forall x :: AnsweringOf(v, x) == AnsweringOf(s, x) && FinishingOf(v, x) == FinishingOf(s, x)
  {
  }

  lemma KeepsReclaim(s: State, id: Id)
    requires Inv(s) && Enabled(s, Reclaim(id))
    ensures Inv(Apply(s, Reclaim(id)))
  {
    Alive(s, id);
    var v := Apply(s, Reclaim(id));
    assert Good(ViewOf(s, id));
    if Queued(s, id) {
      UnlinkQueues(s, id);
      SameThreads(s, v);
      assert ViewOf(v, id) == ViewOf(s, id).(op := Some(v.ops[id]), queued := false);
    } else {
      CallersStep(s, v, id);
    }
    InvAt(s, v, id);
  }

  lemma KeepsSubmit(s: State, id: Id)
    requires Inv(s) && Enabled(s, Submit(id))
    ensures Inv(Apply(s, Submit(id)))
  {
    var v := Apply(s, Submit(id));
    assert Good(ViewOf(s, id));
    SameThreads(s, v);
    assert !Queued(s, id);
    DistinctParts(s.pending, s.processing);
    DistinctParts(s.pending, [id]);
    DistinctParts(v.pending, v.processing);
    forall x ensures Good(ViewOf(v, x)) {
      assert Good(ViewOf(s, x));
      if x != id { assert ViewOf(v, x) == ViewOf(s, x); }
    }
    assert forall t | t in s.writers && s.writers[t].Found? && s.writers[t].id == id :: t in AnsweringOf(s, id);
  }

  // --------------------------------------------------------------- readers

  lemma ReaderJoined(s: State, v: State, t: Tid, id: Id)
    requires t !in s.readers && t in v.readers && v.readers == s.readers[t := v.readers[t]] && v.readers[t].id == id
    requires v.writers == s.writers
    ensures |ReadersOf(v, id)| == |ReadersOf(s, id)| + 1
    ensures forall x | x != id :: ReadersOf(v, x) == ReadersOf(s, x)
    ensures forall x :: AnsweringOf(v, x) == AnsweringOf(s, x) && FinishingOf(v, x) == FinishingOf(s, x)
  {
    CardAdd(ReadersOf(s, id), ReadersOf(v, id), t) by {
      assert ReadersOf(v, id) == ReadersOf(s, id) + {t};
    }
    assert forall x | x != id :: ReadersOf(v, x) == ReadersOf(s, x);
    assert forall x :: AnsweringOf(v, x) == AnsweringOf(s, x) && FinishingOf(v, x) == FinishingOf(s, x);
  }

  /** Moving the head of one queue to the end of the other. */
  lemma HeadMoves(pending: seq<Id>, processing: seq<Id>)
    requires pending != [] && Distinct(pending + processing)
    ensures Distinct(pending[1..] + (processing + [pending[0]]))
    ensures forall x :: x in pending[1..] || x in processing + [pending[0]] <==> x in pending || x in processing
  {
    var id, rest := pending[0], pending[1..];
    assert pending == [id] + rest;
    DistinctParts([id], rest);
    DistinctParts(pending, processing);
    DistinctParts(processing, [id]);
    DistinctParts(rest, processing + [id]);
  }

  lemma KeepsReadTake(s: State, t: Tid)
    requires Inv(s) && Enabled(s, ReadTake(t))
    ensures Inv(Apply(s, ReadTake(t)))
  {
    var id := s.pending[0];
    assert Queued(s, id);
    Alive(s, id);
    var v := Apply(s, ReadTake(t));
    assert Good(ViewOf(s, id));
    ReaderJoined(s, v, t, id);
    HeadMoves(s.pending, s.processing);
    assert forall x :: Queued(v, x) <==> Queued(s, x);
    assert ViewOf(v, id) == ViewOf(s, id).(op := Some(v.ops[id]), readers := ViewOf(s, id).readers + 1);
    InvAt(s, v, id);
  }

  lemma ReaderLeft(s: State, v: State, t: Tid, id: Id)
    requires t in s.readers && s.readers[t].id == id && v.readers == s.readers - {t} && v.writers == s.writers
    ensures |ReadersOf(v, id)| == |ReadersOf(s, id)| - 1
    ensures forall x | x != id :: ReadersOf(v, x) == ReadersOf(s, x)
    ensures forall x :: AnsweringOf(v, x) == AnsweringOf(s, x) && FinishingOf(v, x) == FinishingOf(s, x)
  {
    CardRemove(ReadersOf(s, id), ReadersOf(v, id), t) by {
      assert ReadersOf(v, id) == ReadersOf(s, id) - {t};
    }
    assert forall x | x != id :: ReadersOf(v, x) == ReadersOf(s, x);
    assert forall x :: AnsweringOf(v, x) == AnsweringOf(s, x) && FinishingOf(v, x) == FinishingOf(s, x);
  }

  lemma ReaderGone(s: State, v: State, t: Tid)
    requires Inv(s) && t in s.readers && v == Touch(s.(readers := s.readers - {t}), s.readers[t].id, PutOnly)
    ensures Inv(v)
  {
    var id := s.readers[t].id;
    assert t in ReadersOf(s, id);
    Alive(s, id);
    assert Good(ViewOf(s, id));
    ReaderLeft(s, v, t, id);
    assert ViewOf(v, id) == ViewOf(s, id).(op := Some(v.ops[id]), readers := ViewOf(s, id).readers - 1);
    InvAt(s, v, id);
  }

  /** Requeueing after a fault puts the request back at the head of the queue, once. */
  lemma RequeueQueues(s: State, id: Id)
    requires Distinct(s.pending + s.processing)
    ensures Distinct([id] + Without(s.pending, id) + Without(s.processing, id))
  {
    UnlinkQueues(s, id);
    var rest := Without(s.pending, id) + Without(s.processing, id);
    DistinctParts([id], rest);
    assert [id] + Without(s.pending, id) + Without(s.processing, id) == [id] + rest;
  }

  lemma KeepsCopyFault(s: State, t: Tid)
    requires Inv(s) && Enabled(s, CopyFault(t))
    ensures Inv(Apply(s, CopyFault(t)))
  {
    var id := s.readers[t].id;
    assert t in ReadersOf(s, id);
    Alive(s, id);
    var v := Apply(s, CopyFault(t));
    assert forall x :: ReadersOf(v, x) == ReadersOf(s, x);
    assert forall x :: AnsweringOf(v, x) == AnsweringOf(s, x) && FinishingOf(v, x) == FinishingOf(s, x);
    RequeueQueues(s, id);
    assert v.ops == s.ops;
    assert forall x :: Queued(v, x) <==> Queued(s, x);
    assert forall x :: ViewOf(v, x) == ViewOf(s, x);
    assert Good(ViewOf(s, id));
    InvAt(s, v, id);
  }

  // --------------------------------------------------------------- writers

  lemma {:induction false} LookupFinds(s: State, q: seq<Id>, u: nat)
    requires Lookup(s, q, u).Some?
    ensures var id := Lookup(s, q, u).value; id in q && id in s.ops && s.ops[id].req.unique == u
  {
    if !(q[0] in s.ops && s.ops[q[0]].req.unique == u) { LookupFinds(s, q[1..], u); }
  }

  lemma KeepsWriteTake(s: State, t: Tid, u: nat)
    requires Inv(s) && Enabled(s, WriteTake(t, u))
    ensures Inv(Apply(s, WriteTake(t, u)))
  {
    LookupFinds(s, s.processing, u);
    var id := Lookup(s, s.processing, u).value;
    var v := Apply(s, WriteTake(t, u));
    forall x | x in s.processing ensures x in s.ops && s.ops[x].req.live {
      assert Queued(s, x);
      Alive(s, x);
    }
    assert Queued(s, id) && Good(ViewOf(s, id));
    WriterFound(s, v, t, id, u);
    WriteTakeQueues(s, id);
    assert v.ops == s.ops;
    assert ViewOf(v, id) == ViewOf(s, id).(queued := false, answering := 1);
    forall x ensures Good(ViewOf(v, x)) {
      assert Good(ViewOf(s, x));
      if x != id { assert ViewOf(v, x) == ViewOf(s, x); }
    }
  }

  lemma WriterFound(s: State, v: State, t: Tid, id: Id, u: nat)
    requires t !in s.writers && v.writers == s.writers[t := Found(id, u)] && v.readers == s.readers
    ensures |AnsweringOf(v, id)| == |AnsweringOf(s, id)| + 1
    ensures forall x | x != id :: AnsweringOf(v, x) == AnsweringOf(s, x)
    ensures forall x :: ReadersOf(v, x) == ReadersOf(s, x) && FinishingOf(v, x) == FinishingOf(s, x)
  {
    CardAdd(AnsweringOf(s, id), AnsweringOf(v, id), t) by {
      assert AnsweringOf(v, id) == AnsweringOf(s, id) + {t};
    }
  }

  lemma WriterFinishes(s: State, v: State, t: Tid, id: Id)
    requires t in AnsweringOf(s, id) && v.writers == s.writers[t := Finishing(id)] && v.readers == s.readers
    ensures |AnsweringOf(v, id)| == |AnsweringOf(s, id)| - 1 && |FinishingOf(v, id)| == |FinishingOf(s, id)| + 1
    ensures forall x | x != id :: AnsweringOf(v, x) == AnsweringOf(s, x) && FinishingOf(v, x) == FinishingOf(s, x)
    ensures forall x :: ReadersOf(v, x) == ReadersOf(s, x)
  {
    CardRemove(AnsweringOf(s, id), AnsweringOf(v, id), t) by {
      assert AnsweringOf(v, id) == AnsweringOf(s, id) - {t};
    }
    CardAdd(FinishingOf(s, id), FinishingOf(v, id), t) by {
      assert FinishingOf(v, id) == FinishingOf(s, id) + {t};
    }
  }

  lemma WriteTakeQueues(s: State, id: Id)
    requires Distinct(s.pending + s.processing) && id in s.processing
    ensures Distinct(s.pending + Without(s.processing, id)) && id !in s.pending
  {
    DistinctParts(s.pending, s.processing);
    WithoutDistinct(s.processing, id);
    DistinctParts(s.pending, Without(s.processing, id));
  }

  lemma KeepsComplete(s: State, t: Tid)
    requires Inv(s) && Enabled(s, Complete(t))
    ensures Inv(Apply(s, Complete(t)))
  {
    var id := s.writers[t].id;
    assert t in AnsweringOf(s, id);
    Alive(s, id);
    assert Good(ViewOf(s, id));
    var v := Apply(s, Complete(t));
    WriterFinishes(s, v, t, id);
    assert ViewOf(v, id) == ViewOf(s, id).(op := Some(v.ops[id]), answering := 0, finishing := 1);
    InvAt(s, v, id);
  }

  lemma KeepsWriterPut(s: State, t: Tid)
    requires Inv(s) && Enabled(s, WriterPut(t))
    ensures Inv(Apply(s, WriterPut(t)))
  {
    var id := s.writers[t].id;
    assert t in FinishingOf(s, id);
    Alive(s, id);
    assert Good(ViewOf(s, id));
    var v := Apply(s, WriterPut(t));
    CardRemove(FinishingOf(s, id), FinishingOf(v, id), t) by {
      assert FinishingOf(v, id) == FinishingOf(s, id) - {t};
    }
    assert forall x | x != id :: FinishingOf(v, x) == FinishingOf(s, x);
    assert forall x :: ReadersOf(v, x) == ReadersOf(s, x) && AnsweringOf(v, x) == AnsweringOf(s, x);
    assert ViewOf(v, id) == ViewOf(s, id).(op := Some(v.ops[id]), finishing := 0);
    InvAt(s, v, id);
  }

  // ----------------------------------------------------------------- abort

  ghost predicate FailedAt(s: State, v: State, ids: seq<Id>) {
    && v == s.(ops := v.ops) && v.ops.Keys == s.ops.Keys
    && (forall x | x in s.ops :: v.ops[x] == if x in ids then Failed(s.ops[x]) else s.ops[x])
  }

  lemma FailOne(s: State, v: State, ids: seq<Id>, last: Id)
    requires FailedAt(s, v, ids) && last !in ids && last in s.ops && s.ops[last].req.live
    ensures FailedAt(s, Touch(v, last, Failed), ids + [last])
  {
    assert v.ops[last] == s.ops[last];
  }

  lemma {:induction false} FailAllAt(s: State, ids: seq<Id>)
    requires Distinct(ids) && forall x | x in ids :: x in s.ops && s.ops[x].req.live
    ensures FailedAt(s, FailAll(s, ids), ids)
  {
    if ids != [] {
      var init, last := ids[..|ids| - 1], ids[|ids| - 1];
      assert ids == init + [last];
      assert last in ids;
      FailAllAt(s, init);
      FailOne(s, FailAll(s, init), init, last);
    }
  }

  lemma FailedIsGood(s: State, v: State, x: Id)
    requires Inv(s) && Queued(s, x) && x in s.ops && x in v.ops && v.ops[x] == Failed(s.ops[x])
    requires ViewOf(v, x) == ViewOf(s, x).(op := Some(v.ops[x]), queued := false)
    ensures Good(ViewOf(v, x))
  {
    assert Good(ViewOf(s, x));
  }

  lemma KeepsAbort(s: State)
    requires Inv(s)
    ensures Inv(Apply(s, Abort))
  {
    var ids := s.pending + s.processing;
    forall x | x in ids ensures x in s.ops && s.ops[x].req.live {
      assert Queued(s, x);
      Alive(s, x);
    }
    var s1 := s.(connected := false, pending := [], processing := []);
    FailAllAt(s1, ids);
    var v := Apply(s, Abort);
    SameThreads(s, v);
    forall x ensures Good(ViewOf(v, x)) {
      assert Good(ViewOf(s, x));
      assert x in ids <==> Queued(s, x);
      if x in ids {
        FailedIsGood(s, v, x);
      } else {
        assert ViewOf(v, x) == ViewOf(s, x);
      }
    }
    UniquesAfterAbort(s, v, ids);
  }

  lemma UniquesAfterAbort(s: State, v: State, ids: seq<Id>)
    requires UniquesSound(s) && FailedAt(s.(connected := false, pending := [], processing := []), v, ids)
    ensures UniquesSound(v)
  {
    forall x | x in v.ops
      ensures v.ops[x].req.unique == s.ops[x].req.unique
      ensures v.ops[x].req.answer == s.ops[x].req.answer || v.ops[x].req.answer == Some(Aborted)
    {
    }
    forall x, y | x in v.ops && y in v.ops && v.ops[x].req.unique == v.ops[y].req.unique ensures x == y {
      assert s.ops[x].req.unique == s.ops[y].req.unique;
    }
  }

  // ------------------------------------------------------------- whole runs

  lemma KeepsInv(s: State, step: Step)
    requires Inv(s) && Enabled(s, step)
    ensures Inv(Apply(s, step))
  {
    match step
    case Submit(id) => KeepsSubmit(s, id);
    case Signal(id) => KeepsSignal(s, id);
    case Reclaim(id) => KeepsReclaim(s, id);
    case DropQueueRef(id) => KeepsDropQueueRef(s, id);
    case Leave(id) => KeepsLeave(s, id);
    case Return(id) => KeepsReturn(s, id);
    case ReadTake(t) => KeepsReadTake(s, t);
    case CopyDone(t) => ReaderGone(s, Apply(s, step), t);
    case CopyFault(t) => KeepsCopyFault(s, t);
    case FaultPut(t) => ReaderGone(s, Apply(s, step), t);
    case WriteTake(t, u) => KeepsWriteTake(s, t, u);
    case Complete(t) => KeepsComplete(s, t);
    case WriterPut(t) => KeepsWriterPut(s, t);
    case Abort => KeepsAbort(s);
  }

  lemma {:induction false} EveryRun(steps: seq<Step>)
    requires Run(steps).Some?
    ensures Inv(Run(steps).value)
  {
    if steps == [] {
      assert forall id :: ViewOf(Init(), id) == View(None, false, 0, 0, 0);
    } else {
      EveryRun(steps[..|steps| - 1]);
      KeepsInv(Run(steps[..|steps| - 1]).value, steps[|steps| - 1]);
    }
  }

  /** No step of any run touches a freed request or drops a reference nobody holds; every count is
      the number of holders; and a request is freed exactly once, when the last holder lets go. */
  lemma RefcountsAreExact(steps: seq<Step>, id: Id)
    requires Run(steps).Some? && id in Run(steps).value.ops
    ensures var s := Run(steps).value; var r := s.ops[id].req;
            && !s.bad
            && r.refs == Claims(ViewOf(s, id))
            && (r.live <==> Claims(ViewOf(s, id)) > 0)
            && r.frees == if r.live then 0 else 1
  {
    EveryRun(steps);
    assert Good(ViewOf(Run(steps).value, id));
  }

  /** A sleeping caller's request is completed, on a queue of a live connection, or held by exactly
      one writer whose completing step is enabled. A request completes at most once. */
  lemma NoSleeperStranded(steps: seq<Step>, id: Id)
    requires Run(steps).Some? && id in Run(steps).value.ops
    ensures var s := Run(steps).value;
            && s.ops[id].req.completions <= 1
            && (CallerIs(s, id, Waiting) ==>
                  || Enabled(s, Return(id))
                  || (s.connected && Queued(s, id))
                  || exists t :: AnsweringOf(s, id) == {t} && Enabled(s, Complete(t)))
  {
    EveryRun(steps);
    var s := Run(steps).value;
    assert Good(ViewOf(s, id));
    if CallerIs(s, id, Waiting) && ViewOf(s, id).answering == 1 {
      var t :| t in AnsweringOf(s, id);
      CardRemove(AnsweringOf(s, id), AnsweringOf(s, id) - {t}, t);
      assert AnsweringOf(s, id) == {t};
    }
  }

  ghost predicate OwnReply(o: Op) {
    o.caller.Returned? && o.caller.result.Some? ==>
      o.caller.result == Some(Aborted) || o.caller.result == Some(Reply(o.req.unique))
  }

  lemma InvMeansOwnReply(s: State, id: Id)
    requires Inv(s) && id in s.ops
    ensures OwnReply(s.ops[id])
  {
    assert Good(ViewOf(s, id));
    var o := s.ops[id];
    if o.caller.Returned? && o.caller.result.Some? && o.caller.result.value.Reply? {
      assert o.req.answer == o.caller.result;
      assert o.req.answer.value.unique == o.req.unique;
    }
  }

  /** What a caller gets back was written for its own request, or is the abort. */
  lemma RepliesReachTheirCaller(steps: seq<Step>, id: Id)
    requires Run(steps).Some? && id in Run(steps).value.ops
    ensures OwnReply(Run(steps).value.ops[id])
  {
    EveryRun(steps);
    InvMeansOwnReply(Run(steps).value, id);
  }

  lemma StaysDisconnected(s: State, step: Step)
    requires Inv(s) && !s.connected && Enabled(s, step)
    ensures !Apply(s, step).connected
  {
    if step.Abort? { assert s.pending + s.processing == []; }
  }

  /** After an abort both queues are empty for the rest of the run, whatever follows. */
  lemma {:induction false} AbortIsFinal(before: seq<Step>, after: seq<Step>)
    requires Run(before + [Abort] + after).Some?
    ensures var s := Run(before + [Abort] + after).value;
            !s.connected && s.pending == [] && s.processing == []
  {
    var steps := before + [Abort] + after;
    EveryRun(steps);
    var init := steps[..|steps| - 1];
    EveryRun(init);
    if after == [] {
      assert init == before;
      AbortDisconnects(Run(before).value);
    } else {
      assert init == before + [Abort] + after[..|after| - 1];
      AbortIsFinal(before, after[..|after| - 1]);
      StaysDisconnected(Run(init).value, steps[|steps| - 1]);
    }
  }

  lemma AbortDisconnects(s: State)
    requires Inv(s)
    ensures !Apply(s, Abort).connected
  {
    var ids := s.pending + s.processing;
    forall x | x in ids ensures x in s.ops && s.ops[x].req.live {
      assert Queued(s, x);
      Alive(s, x);
    }
    FailAllAt(s.(connected := false, pending := [], processing := []), ids);
  }
}
