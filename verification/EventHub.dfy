/** The per-export event hub: numbered ring log plus live fan-out.
    Models `crates/alloyfs-agent/src/watch.rs` and the forwarding task of
    `crates/alloyfs-agent/src/ops.rs`. */
module EventHub {
  import opened Common

  /** `what` stands for path and kind; `origin` is the session whose write caused the event. */
  datatype Event = Event(num: nat, what: int, origin: Option<nat>)

  /** An event before it gets its number. */
  datatype Raw = Raw(what: int, origin: Option<nat>)

  /** The state guarded by the log's mutex. */
  datatype Ring = Ring(num: nat, log: seq<Event>, cap: nat)

  datatype CatchUp = TooOld | Events(events: seq<Event>)

  // --------------------------------------------------------- specification

  function Numbered(r: Ring, raw: Raw): Event {
    Event(r.num + 1, raw.what, raw.origin)
  }

  /** One turn of the loop in `publish`. */
  function AppendOne(r: Ring, raw: Raw): Ring {
    var kept := if |r.log| == r.cap && r.log != [] then r.log[1..] else r.log;
    Ring(r.num + 1, kept + [Numbered(r, raw)], r.cap)
  }

  function AppendAll(r: Ring, raws: seq<Raw>): Ring {
    if raws == [] then r else AppendOne(AppendAll(r, raws[..|raws| - 1]), raws[|raws| - 1])
  }

  /** The batch `publish` hands to the live channel. */
  function Batch(r: Ring, raws: seq<Raw>): seq<Event> {
    seq(|raws|, i requires 0 <= i < |raws| => Event(r.num + 1 + i, raws[i].what, raws[i].origin))
  }

  function After(events: seq<Event>, since: nat): seq<Event> {
    if events == [] then []
    else
      var init, last := After(events[..|events| - 1], since), events[|events| - 1];
      if last.num > since then init + [last] else init
  }

  function CatchUpFrom(r: Ring, since: nat): CatchUp {
    if r.log != [] && r.log[0].num > since + 1 then TooOld else Events(After(r.log, since))
  }

  // ------------------------------------------------------------- the object

  class Hub {
    var num: nat
    var log: seq<Event>
    const cap: nat

    ghost function State(): Ring
      reads this
    {
      Ring(num, log, cap)
    }

    constructor (cap: nat)
      ensures State() == Ring(0, [], cap)
    {
      this.num, this.log, this.cap := 0, [], cap;
    }

    /** The locked section of `publish`: number, remember, collect the batch. */
    method Append(raws: seq<Raw>) returns (batch: seq<Event>)
      modifies this
      ensures State() == AppendAll(old(State()), raws)
      ensures batch == Batch(old(State()), raws)
    {
      batch := [];
      for i := 0 to |raws|
        invariant State() == AppendAll(old(State()), raws[..i]) && num == old(num) + i
        invariant batch == Batch(old(State()), raws[..i])
      {
        assert raws[..i + 1][..i] == raws[..i];
        num := num + 1;
        var event := Event(num, raws[i].what, raws[i].origin);
        if |log| == cap && log != [] { log := log[1..]; }
        log := log + [event];
        batch := batch + [event];
      }
      assert raws[..|raws|] == raws;
    }

    /** The locked section of `subscribe`. */
    method ReadLog(since: nat) returns (r: CatchUp)
      ensures r == CatchUpFrom(State(), since)
    {
      if log != [] && log[0].num > since + 1 { return TooOld; }
      var events: seq<Event> := [];
      for i := 0 to |log|
        invariant events == After(log[..i], since)
      {
        assert log[..i + 1][..i] == log[..i];
        if log[i].num > since { events := events + [log[i]]; }
      }
      assert log[..|log|] == log;
      return Events(events);
    }
  }

  // ------------------------------------------------------------ ring lemmas

  /** `history[i]` is the event that got number `i + 1`. */
  ghost predicate Numbers(history: seq<Event>) {
    forall i | 0 <= i < |history| :: history[i].num == i + 1
  }

  /** The ring is the newest part of everything ever published. */
  ghost predicate RingOf(r: Ring, history: seq<Event>) {
    && r.num == |history| && Numbers(history)
    && |r.log| == (if r.cap == 0 || |history| < r.cap then |history| else r.cap)
    && r.log == history[|history| - |r.log|..]
  }

  lemma AppendOneKeepsRing(r: Ring, history: seq<Event>, raw: Raw)
    requires RingOf(r, history)
    ensures RingOf(AppendOne(r, raw), history + [Numbered(r, raw)])
  {
  }

  lemma {:induction false} AppendKeepsRing(r: Ring, history: seq<Event>, raws: seq<Raw>)
    requires RingOf(r, history)
    ensures RingOf(AppendAll(r, raws), history + Batch(r, raws))
  {
    if raws == [] {
      assert history + Batch(r, raws) == history;
    } else {
      var init, last := raws[..|raws| - 1], raws[|raws| - 1];
      AppendKeepsRing(r, history, init);
      var mid := AppendAll(r, init);
      AppendOneKeepsRing(mid, history + Batch(r, init), last);
      assert Batch(r, raws) == Batch(r, init) + [Numbered(mid, last)];
      assert history + Batch(r, raws) == history + Batch(r, init) + [Numbered(mid, last)];
    }
  }

  lemma {:induction false} AfterIsFilter(events: seq<Event>, since: nat, e: Event)
    ensures e in After(events, since) <==> e in events && e.num > since
  {
    if events != [] {
      AfterIsFilter(events[..|events| - 1], since, e);
      assert events == events[..|events| - 1] + [events[|events| - 1]];
    }
  }

  /** `TooOld` is the answer exactly when some event after `since` has left the ring;
      otherwise the catch-up holds every event after `since`. */
  lemma TooOldExactly(r: Ring, history: seq<Event>, since: nat)
    requires RingOf(r, history)
    ensures CatchUpFrom(r, since).TooOld? <==> exists i | since <= i < |history| :: history[i] !in r.log
    ensures CatchUpFrom(r, since).Events? ==>
              forall e :: e in CatchUpFrom(r, since).events <==> e in history && e.num > since
  {
    var gone := |history| - |r.log|;
    forall i | 0 <= i < |history| ensures history[i] in r.log <==> i >= gone {
      if i >= gone { assert r.log[i - gone] == history[i]; }
      if history[i] in r.log {
        var k :| 0 <= k < |r.log| && r.log[k] == history[i];
        assert history[gone + k] == history[i];
      }
    }
    if r.log != [] { assert r.log[0] == history[gone]; }
    if CatchUpFrom(r, since).TooOld? {
      assert since < gone && history[since] !in r.log;
    } else {
      forall e ensures e in CatchUpFrom(r, since).events <==> e in history && e.num > since {
        AfterIsFilter(r.log, since, e);
        if e in r.log {
          var k :| 0 <= k < |r.log| && r.log[k] == e;
          assert history[gone + k] == e;
        }
      }
    }
  }
}
