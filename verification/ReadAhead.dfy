/** The prefetch window and retained blocks of one open handle.
    Models `crates/alloyfs-client/src/readahead.rs`. */
module ReadAhead {
  import opened Common

  const DATA_CHUNK: nat := 128 * 1024
  const WINDOW_BLOCKS: nat := 32
  const MIN_STREAK: nat := 2
  const RETAIN_BLOCKS: nat := 4
  const MAX_STREAK: nat := 0xFFFF_FFFF
  const MAX_BLOCK: nat := 0xFFFF_FFFF_FFFF_FFFF

  function Min(a: nat, b: nat): nat { if a <= b then a else b }
  function Max(a: nat, b: nat): nat { if a <= b then b else a }
  function SatSub(a: nat, b: nat): nat { if a <= b then 0 else a - b }

  /** What lies between two offsets, clipped at the end of the file: a plain read. */
  function Slice(file: Bytes, lo: nat, hi: nat): Bytes
    requires lo <= hi
  {
    file[Min(lo, |file|)..Min(hi, |file|)]
  }

  function Block(file: Bytes, b: nat): Bytes {
    Slice(file, b * DATA_CHUNK, (b + 1) * DATA_CHUNK)
  }

  function BlockOf(offset: nat): nat {
    offset / DATA_CHUNK
  }

  /** A prefetch is represented by the result it will have; `None` is a failed one. */
  datatype Cache = Cache(window: map<nat, Option<Bytes>>, recent: seq<(nat, Bytes)>, expectedNext: nat, streak: nat)

  /** Whatever is in the window or retained is what the file holds. */
  ghost predicate Coherent(c: Cache, file: Bytes) {
    && (forall b | b in c.window && c.window[b].Some? :: c.window[b].value == Block(file, b))
    && (forall i | 0 <= i < |c.recent| :: c.recent[i].1 == Block(file, c.recent[i].0))
  }

  predicate Near(c: Cache, offset: nat) {
    var block, expected := BlockOf(offset), BlockOf(c.expectedNext);
    SatSub(expected, WINDOW_BLOCKS) <= block <= expected + WINDOW_BLOCKS
  }

  /** Tracking a read's position; only a far seek empties the cache. */
  function Observed(c: Cache, offset: nat, size: nat): Cache {
    if offset == c.expectedNext then c.(streak := Min(c.streak + 1, MAX_STREAK), expectedNext := offset + size)
    else if Near(c, offset) then
      c.(streak := Min(c.streak + 1, MAX_STREAK), expectedNext := Max(c.expectedNext, offset + size))
    else Cache(map[], [], offset + size, if offset == 0 then 1 else 0)
  }

  /** Position of a block's retained copy, or the length if there is none. */
  function SlotOf(recent: seq<(nat, Bytes)>, block: nat): (i: nat)
    ensures i <= |recent|
    ensures i < |recent| ==> recent[i].0 == block
  {
    if recent == [] || recent[0].0 == block then 0 else 1 + SlotOf(recent[1..], block)
  }

  function Remember(recent: seq<(nat, Bytes)>, block: nat, data: Bytes): seq<(nat, Bytes)> {
    var i := SlotOf(recent, block);
    if i < |recent| then recent[i := (block, data)]
    else (if |recent| == RETAIN_BLOCKS then recent[1..] else recent) + [(block, data)]
  }

  class Reader {
    var window: map<nat, Option<Bytes>>
    var recent: seq<(nat, Bytes)>
    var expectedNext: nat
    var streak: nat

    ghost function State(): Cache
      reads this
    {
      Cache(window, recent, expectedNext, streak)
    }

    constructor ()
      ensures State() == Cache(map[], [], 0, 0)
    {
      window, recent, expectedNext, streak := map[], [], 0, 0;
    }

    method Clear()
      modifies this
      ensures State() == Cache(map[], [], old(expectedNext), old(streak))
    {
      window := map[];
      recent := [];
    }

    /** Record this read's position; true when the window should be topped up. */
    method Observe(offset: nat, size: nat) returns (prefetch: bool)
      modifies this
      ensures State() == Observed(old(State()), offset, size)
      ensures prefetch <==> streak >= MIN_STREAK && (offset == old(expectedNext) || Near(old(State()), offset))
    {
      if offset == expectedNext {
        streak := Min(streak + 1, MAX_STREAK);
        expectedNext := offset + size;
        return streak >= MIN_STREAK;
      }
      var block, expected := BlockOf(offset), BlockOf(expectedNext);
      if SatSub(expected, WINDOW_BLOCKS) <= block <= expected + WINDOW_BLOCKS {
        streak := Min(streak + 1, MAX_STREAK);
        expectedNext := Max(expectedNext, offset + size);
        return streak >= MIN_STREAK;
      }
      streak := if offset == 0 then 1 else 0;
      expectedNext := offset + size;
      Clear();
      return false;
    }

    /** Take the in-flight fetch of a block, once. */
    method Take(block: nat) returns (task: Option<Option<Bytes>>)
      modifies this
      ensures task == (if block in old(window) then Some(old(window)[block]) else None)
      ensures State() == old(State()).(window := old(window) - {block})
    {
      task := if block in window then Some(window[block]) else None;
      window := window - {block};
    }

    /** The first retained copy of a block. */
    method Retained(block: nat) returns (data: Option<Bytes>)
      ensures var i := SlotOf(recent, block);
              data == if i < |recent| then Some(recent[i].1) else None
    {
      var i := 0;
      while i < |recent|
        invariant i <= |recent| && SlotOf(recent, block) == i + SlotOf(recent[i..], block)
      {
        assert recent[i..][1..] == recent[i + 1..];
        if recent[i].0 == block { return Some(recent[i].1); }
        i := i + 1;
      }
      return None;
    }

    /** Remember an assembled block: replace its slot, or append and drop the oldest of a full ring. */
    method Retain(block: nat, data: Bytes)
      modifies this
      ensures State() == old(State()).(recent := Remember(old(recent), block, data))
    {
      var i := 0;
      while i < |recent|
        invariant i <= |recent| && recent == old(recent) && State() == old(State())
        invariant SlotOf(recent, block) == i + SlotOf(recent[i..], block)
      {
        assert recent[i..][1..] == recent[i + 1..];
        if recent[i].0 == block {
          recent := recent[i := (block, data)];
          return;
        }
        i := i + 1;
      }
      if |recent| == RETAIN_BLOCKS { recent := recent[1..]; }
      recent := recent + [(block, data)];
    }

    /** The blocks of the window ahead of `from`, below `end`, that are not in flight yet. */
    method Missing(from: nat, end: nat) returns (blocks: seq<nat>)
      ensures forall b :: b in blocks <==> from <= b < Min(Min(from + WINDOW_BLOCKS, MAX_BLOCK), end) && b !in window
      ensures forall i, j | 0 <= i < j < |blocks| :: blocks[i] < blocks[j]
    {
      blocks := [];
      var upto := Min(Min(from + WINDOW_BLOCKS, MAX_BLOCK), end);
      for b := from to Max(from, upto)
        invariant forall x :: x in blocks <==> from <= x < b && x !in window
        invariant forall i, j | 0 <= i < j < |blocks| :: blocks[i] < blocks[j]
      {
        if b !in window {
          assert forall i | 0 <= i < |blocks| :: blocks[i] in blocks;
          blocks := blocks + [b];
        }
      }
    }

    method Put(block: nat, task: Option<Bytes>)
      modifies this
      ensures State() == old(State()).(window := old(window)[block := task])
    {
      window := window[block := task];
    }
  }

  // ---------------------------------------------------------------- slices

  lemma SliceJoins(file: Bytes, a: nat, b: nat, c: nat)
    requires a <= b <= c
    ensures Slice(file, a, b) + Slice(file, b, c) == Slice(file, a, c)
  {
  }

  /** Cutting the requested range out of the assembled blocks. */
  lemma CutOut(file: Bytes, lo: nat, hi: nat, offset: nat, size: nat)
    requires lo <= offset && offset + size <= hi
    ensures var whole := Slice(file, lo, hi); var skip := offset - lo;
            (if skip >= |whole| then [] else whole[skip..Min(skip + size, |whole|)]) == Slice(file, offset, offset + size)
  {
    var whole, skip, plain := Slice(file, lo, hi), offset - lo, Slice(file, offset, offset + size);
    if skip < |whole| {
      var out := whole[skip..Min(skip + size, |whole|)];
      assert |out| == |plain|;
      forall i | 0 <= i < |out| ensures out[i] == plain[i] {
        assert out[i] == whole[skip + i] == file[lo + skip + i];
        assert plain[i] == file[offset + i];
      }
      assert out == plain;
    } else {
      assert plain == [];
    }
  }

  // ------------------------------------------------------------- coherence

  lemma ObserveCoherent(c: Cache, offset: nat, size: nat, file: Bytes)
    requires Coherent(c, file)
    ensures Coherent(Observed(c, offset, size), file)
  {
  }

  lemma RetainCoherent(c: Cache, block: nat, file: Bytes)
    requires Coherent(c, file)
    ensures Coherent(c.(recent := Remember(c.recent, block, Block(file, block))), file)
    ensures |c.recent| <= RETAIN_BLOCKS ==> |Remember(c.recent, block, Block(file, block))| <= RETAIN_BLOCKS
  {
  }
}
