/** The kernel side of `/dev/alloyfs` as a machine whose steps are the sections between two lock
    operations or reference drops. Models `kernel/alloyfs/alloyfs_conn.c`.

    Threads are callers (one per request), readers and writers of the device. A request stays in
    `ops` after it was freed, marked dead; `bad` is raised by any step that touches a dead request
    or drops a reference that does not exist. */
module KernelConn {
  import opened Common

  type Id = nat     // a request, by its address; addresses are not reused here
  type Tid = nat    // a daemon thread

  datatype Answer = Reply(unique: nat) | Aborted

  /** `frees` and `completions` count what happened to the request, for the record. */
  datatype Req = Req(live: bool, refs: nat, unique: nat, answer: Option<Answer>, frees: nat, completions: nat)

  datatype Caller =
    | Waiting          // asleep in wait_for_completion_killable
    | Interrupted      // woken by a fatal signal, lock not taken yet
    | Holding          // took the request off its queue: owns the queue's reference too
    | Leaving          // only its own reference left to drop
    | Returned(result: Option<Answer>)   // `None` after a kill

  /** A request and the thread that submitted it. */
  datatype Op = Op(req: Req, caller: Caller)

  datatype Reader = Copying(id: Id) | Faulted(id: Id)

  datatype Writer = Found(id: Id, unique: nat) | Finishing(id: Id)

  datatype State = State(connected: bool, nextUnique: nat, pending: seq<Id>, processing: seq<Id>,
                         ops: map<Id, Op>, readers: map<Tid, Reader>, writers: map<Tid, Writer>, bad: bool)

  function Init(): State {
    State(true, 0, [], [], map[], map[], map[], false)
  }

  predicate Queued(s: State, id: Id) {
    id in s.pending || id in s.processing
  }

  // ----------------------------------------------------------- primitives

  /** Touch request `id`: `f` says what happens to it. */
  function Touch(s: State, id: Id, f: Op -> Op): State {
    if id in s.ops && s.ops[id].req.live then s.(ops := s.ops[id := f(s.ops[id])]) else s.(bad := true)
  }

  /** `alloyfs_req_put` on a live request: drop one reference, the last one frees. */
  function Drop(r: Req): Req {
    if r.refs <= 1 then r.(live := false, refs := 0, frees := r.frees + 1) else r.(refs := r.refs - 1)
  }

  /** Drop a reference and move the caller on. */
  function PutAs(caller: Caller): Op -> Op {
    (o: Op) => Op(Drop(o.req), caller)
  }

  function PutOnly(o: Op): Op {
    Op(Drop(o.req), o.caller)
  }

  function GetRef(o: Op): Op {
    o.(req := o.req.(refs := o.req.refs + 1))
  }

  /** Store the outcome and signal the completion. */
  function Finish(o: Op, a: Answer): Op {
    o.(req := o.req.(answer := Some(a), completions := o.req.completions + 1))
  }

  /** What aborting does to one queued request: answer it and drop the queue's reference. */
  function Failed(o: Op): Op {
    PutOnly(Finish(o, Aborted))
  }

  function Without(q: seq<Id>, id: Id): (r: seq<Id>)
    ensures forall x :: x in r <==> x in q && x != id
  {
    if q == [] then [] else (if q[0] == id then [] else [q[0]]) + Without(q[1..], id)
  }

  function Unlink(s: State, id: Id): State {
    s.(pending := Without(s.pending, id), processing := Without(s.processing, id))
  }

  /** Answer and release everything that was queued. */
  function FailAll(s: State, ids: seq<Id>): State {
    if ids == [] then s
    else Touch(FailAll(s, ids[..|ids| - 1]), ids[|ids| - 1], Failed)
  }

  /** The first request in `q` that carries `unique`. */
  function Lookup(s: State, q: seq<Id>, unique: nat): Option<Id> {
    if q == [] then None
    else if q[0] in s.ops && s.ops[q[0]].req.unique == unique then Some(q[0])
    else Lookup(s, q[1..], unique)
  }

  // ---------------------------------------------------------------- steps

  datatype Step =
    | Submit(id: Id)
    | Signal(id: Id)
    | Reclaim(id: Id)
    | DropQueueRef(id: Id)
    | Leave(id: Id)
    | Return(id: Id)
    | ReadTake(t: Tid)
    | CopyDone(t: Tid)
    | CopyFault(t: Tid)
    | FaultPut(t: Tid)
    | WriteTake(t: Tid, unique: nat)
    | Complete(t: Tid)
    | WriterPut(t: Tid)
    | Abort

  predicate CallerIs(s: State, id: Id, c: Caller) {
    id in s.ops && s.ops[id].caller == c
  }

  predicate Answered(s: State, id: Id) {
    id in s.ops && s.ops[id].req.answer.Some?
  }

  predicate Enabled(s: State, step: Step) {
    match step
    case Submit(id) => s.connected && id !in s.ops
    case Signal(id) => CallerIs(s, id, Waiting) && !Answered(s, id)
    case Reclaim(id) => CallerIs(s, id, Interrupted)
    case DropQueueRef(id) => CallerIs(s, id, Holding)
    case Leave(id) => CallerIs(s, id, Leaving)
    case Return(id) => CallerIs(s, id, Waiting) && Answered(s, id)
    case ReadTake(t) => s.connected && s.pending != [] && t !in s.readers
    case CopyDone(t) => t in s.readers && s.readers[t].Copying?
    case CopyFault(t) => t in s.readers && s.readers[t].Copying?
    case FaultPut(t) => t in s.readers && s.readers[t].Faulted?
    case WriteTake(t, u) => t !in s.writers && Lookup(s, s.processing, u).Some?
    case Complete(t) => t in s.writers && s.writers[t].Found?
    case WriterPut(t) => t in s.writers && s.writers[t].Finishing?
    case Abort => true
  }

  function Apply(s: State, step: Step): State
    requires Enabled(s, step)
  {
    match step
    case Submit(id) =>
      var u := s.nextUnique + 1;
      s.(nextUnique := u, ops := s.ops[id := Op(Req(true, 2, u, None, 0, 0), Waiting)], pending := s.pending + [id])
    case Signal(id) => Touch(s, id, (o: Op) => o.(caller := Interrupted))
    case Reclaim(id) =>
      // whoever takes the request off its queue owns the queue's reference
      if Queued(s, id) then Touch(Unlink(s, id), id, (o: Op) => o.(caller := Holding))
      else Touch(s, id, (o: Op) => o.(caller := Leaving))
    case DropQueueRef(id) => Touch(s, id, PutAs(Leaving))
    case Leave(id) => Touch(s, id, PutAs(Returned(None)))
    case Return(id) => Touch(s, id, PutAs(Returned(s.ops[id].req.answer)))
    case ReadTake(t) =>
      var id := s.pending[0];
      Touch(s.(pending := s.pending[1..], processing := s.processing + [id],
               readers := s.readers[t := Copying(id)]), id, GetRef)
    case CopyDone(t) => Touch(s.(readers := s.readers - {t}), s.readers[t].id, PutOnly)
    case CopyFault(t) =>
      var id := s.readers[t].id;
      var s1 := s.(readers := s.readers[t := Faulted(id)]);
      if Queued(s, id)
      then Touch(s1.(pending := [id] + Without(s.pending, id), processing := Without(s.processing, id)), id, (o: Op) => o)
      else Touch(s1, id, (o: Op) => o)
    case FaultPut(t) => Touch(s.(readers := s.readers - {t}), s.readers[t].id, PutOnly)
    case WriteTake(t, u) =>
      // the walk over `processing` reads every request on it
      var id := Lookup(s, s.processing, u).value;
      s.(processing := Without(s.processing, id), writers := s.writers[t := Found(id, u)],
         bad := s.bad || exists x :: x in s.processing && !(x in s.ops && s.ops[x].req.live))
    case Complete(t) =>
      var a := Reply(s.writers[t].unique);
      Touch(s.(writers := s.writers[t := Finishing(s.writers[t].id)]), s.writers[t].id, (o: Op) => Finish(o, a))
    case WriterPut(t) => Touch(s.(writers := s.writers - {t}), s.writers[t].id, PutOnly)
    case Abort =>
      FailAll(s.(connected := false, pending := [], processing := []), s.pending + s.processing)
  }

  /** The state after a run, or `None` if some step was not enabled when it was taken. */
  function Run(steps: seq<Step>): Option<State> {
    if steps == [] then Some(Init())
    else
      var before := Run(steps[..|steps| - 1]);
      if before.Some? && Enabled(before.value, steps[|steps| - 1])
      then Some(Apply(before.value, steps[|steps| - 1])) else None
  }

  // ------------------------------------------------------------ invariant

  ghost function ReadersOf(s: State, id: Id): set<Tid> {
    set t | t in s.readers && s.readers[t].id == id
  }

  /** Writers that took `id` off the queue and have not answered it yet. */
  ghost function AnsweringOf(s: State, id: Id): set<Tid> {
    set t | t in s.writers && s.writers[t].Found? && s.writers[t].id == id
  }

  ghost function FinishingOf(s: State, id: Id): set<Tid> {
    set t | t in s.writers && s.writers[t].Finishing? && s.writers[t].id == id
  }

  /** Everything the machine knows about one request. */
  datatype View = View(op: Option<Op>, queued: bool, readers: nat, answering: nat, finishing: nat)

  ghost function ViewOf(s: State, id: Id): View {
    View(Get(s.ops, id), Queued(s, id), |ReadersOf(s, id)|, |AnsweringOf(s, id)|, |FinishingOf(s, id)|)
  }

  /** Who holds a reference: the live caller, the queue (or the caller that took the request off
      it), the readers copying it and the writer completing it. */
  ghost function Claims(v: View): nat {
    (if v.op.Some? && !v.op.value.caller.Returned? then 1 else 0)
    + (if v.queued || (v.op.Some? && v.op.value.caller.Holding?) then 1 else 0)
    + v.readers + v.answering + v.finishing
  }

  /** One request: its count is exact, so it is alive exactly while somebody holds it; it is on a
      queue only while nobody answered or abandoned it; it has at most one writer; its caller never
      sleeps with nobody left to wake it; it is freed once and completed at most once. */
  ghost predicate Good(v: View) {
    if v.op.None? then Claims(v) == 0
    else
      var r, c := v.op.value.req, v.op.value.caller;
      && r.refs == Claims(v) && (r.live <==> r.refs > 0)
      && (v.queued ==> r.answer.None? && v.answering + v.finishing == 0 && (c.Waiting? || c.Interrupted?))
      && v.answering + v.finishing <= 1
      && (v.answering == 1 ==> r.answer.None?)
      && (v.finishing == 1 ==> r.answer.Some?)
      && (c.Holding? ==> v.answering + v.finishing == 0)
      && (c.Waiting? ==> r.answer.Some? || v.queued || v.answering == 1)
      && (c.Returned? && c.result.Some? ==> c.result == r.answer)
      && r.frees == (if r.live then 0 else 1)
      && r.completions == (if r.answer.Some? then 1 else 0)
  }

  ghost predicate Distinct(q: seq<Id>) {
    forall i, j | 0 <= i < j < |q| :: q[i] != q[j]
  }

  /** Numbers handed to the daemon identify one request each, and replies go to their own. */
  ghost predicate UniquesSound(s: State) {
    && (forall id | id in s.ops :: 0 < s.ops[id].req.unique <= s.nextUnique)
    && (forall x, y | x in s.ops && y in s.ops && s.ops[x].req.unique == s.ops[y].req.unique :: x == y)
    && (forall t | t in s.writers && s.writers[t].Found? && s.writers[t].id in s.ops ::
          s.ops[s.writers[t].id].req.unique == s.writers[t].unique)
    && (forall id | id in s.ops && s.ops[id].req.answer.Some? && s.ops[id].req.answer.value.Reply? ::
          s.ops[id].req.answer.value.unique == s.ops[id].req.unique)
  }

  ghost predicate Inv(s: State) {
    && !s.bad
    && Distinct(s.pending + s.processing)
    && (!s.connected ==> s.pending == [] && s.processing == [])
    && (forall id :: Good(ViewOf(s, id)))
    && UniquesSound(s)
  }
}
