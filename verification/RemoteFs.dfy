/** Reads and writes through a mount, with readahead in between.
    Models `read`, `write`, `mark_path_written` and `setattr` with a size of
    `crates/alloyfs-client/src/remote_fs.rs`. Operations run one at a time and the server's files
    change only through them. */
module RemoteFs {
  import opened Common
  import opened Paths
  import opened ReadAhead

  datatype Result<T> = Ok(value: T) | IoError

  /** Which requests the server answers, by file offset; a refused or lost one fails. */
  type Link = nat -> bool

  /** How many bytes of a write the server takes, by offset and length; `None` is a refusal. */
  type Acceptor = (nat, nat) -> Option<nat>

  datatype OpenState = OpenState(path: Path, ra: Reader)

  // ----------------------------------------------------- the server's files

  function Zeros(n: nat): (z: Bytes)
    ensures |z| == n && forall i | 0 <= i < n :: z[i] == 0
  {
    seq(n, i requires 0 <= i < n => 0 as Byte)
  }

  /** A positional write; a gap before it reads as zeros, and writing nothing changes nothing. */
  function WriteAt(file: Bytes, offset: nat, data: Bytes): Bytes {
    if data == [] then file
    else
      var grown := if |file| < offset then file + Zeros(offset - |file|) else file;
      grown[..offset] + data + (if offset + |data| < |grown| then grown[offset + |data|..] else [])
  }

  /** `after` is `file` with `data` at `offset`: old bytes elsewhere, zeros in a gap. */
  ghost predicate Wrote(file: Bytes, offset: nat, data: Bytes, after: Bytes) {
    && |after| == Max(|file|, offset + |data|)
    && (forall i | 0 <= i < |after| ::
          after[i] == if offset <= i < offset + |data| then data[i - offset] else if i < |file| then file[i] else 0)
  }

  /** What a non-empty write leaves at every position. */
  lemma WriteAtIs(file: Bytes, offset: nat, data: Bytes)
    requires data != []
    ensures Wrote(file, offset, data, WriteAt(file, offset, data))
  {
  }

  function SetLen(file: Bytes, size: nat): Bytes {
    if size <= |file| then file[..size] else file + Zeros(size - |file|)
  }

  /** What a new size leaves: a prefix, or everything followed by zeros. */
  lemma SetLenIs(file: Bytes, size: nat)
    ensures var after := SetLen(file, size);
            |after| == size && forall i | 0 <= i < size :: after[i] == if i < |file| then file[i] else 0
  {
  }

  /** Two adjacent writes are one. */
  lemma WritesJoin(file: Bytes, offset: nat, a: Bytes, b: Bytes)
    ensures WriteAt(WriteAt(file, offset, a), offset + |a|, b) == WriteAt(file, offset, a + b)
  {
    if a == [] {
      assert a + b == b;
    } else if b == [] {
      assert a + b == a;
    } else {
      var once, twice := WriteAt(file, offset, a + b), WriteAt(WriteAt(file, offset, a), offset + |a|, b);
      assert |once| == |twice|;
      assert once == twice;
    }
  }

  // ------------------------------------------------------------ block reads

  /** Every block from `first` to `last` is there and is what the file holds. */
  ghost predicate AllReady(ready: map<nat, Bytes>, file: Bytes, first: nat, last: nat) {
    && (forall b | first <= b <= last :: b in ready)
    && (forall b | b in ready :: ready[b] == Block(file, b))
  }

  lemma AssembleNext(file: Bytes, first: nat, b: nat, last: nat)
    requires first <= b <= last
    ensures Slice(file, first * DATA_CHUNK, b * DATA_CHUNK) + Block(file, b) == Slice(file, first * DATA_CHUNK, (b + 1) * DATA_CHUNK)
    ensures |Block(file, b)| < DATA_CHUNK ==>
              Slice(file, first * DATA_CHUNK, (b + 1) * DATA_CHUNK) == Slice(file, first * DATA_CHUNK, (last + 1) * DATA_CHUNK)
  {
    SliceJoins(file, first * DATA_CHUNK, b * DATA_CHUNK, (b + 1) * DATA_CHUNK);
  }

  /** Glue blocks together; a short block ends the file. */
  method Assemble(ready: map<nat, Bytes>, ghost file: Bytes, first: nat, last: nat) returns (assembled: Bytes)
    requires first <= last && AllReady(ready, file, first, last)
    ensures assembled == Slice(file, first * DATA_CHUNK, (last + 1) * DATA_CHUNK)
  {
    assembled := [];
    for b := first to last + 1
      invariant assembled == Slice(file, first * DATA_CHUNK, b * DATA_CHUNK)
    {
      AssembleNext(file, first, b, last);
      assembled := assembled + ready[b];
      if |ready[b]| < DATA_CHUNK { return; }
    }
  }

  /** Use retained copies first, then prefetched blocks; what is left must be fetched. */
  method Collect(ra: Reader, ghost file: Bytes, first: nat, last: nat)
    returns (ready: map<nat, Bytes>, need: seq<nat>)
    requires Coherent(ra.State(), file) && first <= last
    modifies ra
    ensures Coherent(ra.State(), file) && ra.recent == old(ra.recent)
    ensures forall b | b in ready :: first <= b <= last && ready[b] == Block(file, b)
    ensures forall b | first <= b <= last :: b in ready || b in need
  {
    ready, need := map[], [];
    for b := first to last + 1
      invariant Coherent(ra.State(), file) && ra.recent == old(ra.recent)
      invariant forall x | x in ready :: first <= x <= last && ready[x] == Block(file, x)
      invariant forall x | first <= x < b :: x in ready || x in need
    {
      var kept := ra.Retained(b);
      if kept.Some? {
        ready := ready[b := kept.value];
      } else {
        var task := ra.Take(b);
        if task.Some? && task.value.Some? {
          ready := ready[b := task.value.value];
        } else {
          need := need + [b];
        }
      }
    }
  }

  /** Fetch the missing blocks; one failure fails the read. */
  method FetchMissing(file: Bytes, link: Link, ready: map<nat, Bytes>, need: seq<nat>)
    returns (r: Result<map<nat, Bytes>>)
    requires forall b | b in ready :: ready[b] == Block(file, b)
    ensures r.Ok? ==> (forall b | b in need || b in ready :: b in r.value)
                      && (forall b | b in r.value :: r.value[b] == Block(file, b))
    ensures r.IoError? ==> exists b :: b in need && !link(b * DATA_CHUNK)
  {
    var all := ready;
    for i := 0 to |need|
      invariant forall b | b in need[..i] || b in ready :: b in all
      invariant forall b | b in all :: all[b] == Block(file, b)
    {
      assert need[i] in need;
      if !link(need[i] * DATA_CHUNK) { return IoError; }
      all := all[need[i] := Block(file, need[i])];
    }
    assert need[..|need|] == need;
    return Ok(all);
  }

  /** Start the fetches that keep the window full ahead of the reader. */
  method TopUp(ra: Reader, file: Bytes, link: Link, from: nat)
    requires Coherent(ra.State(), file)
    modifies ra
    ensures Coherent(ra.State(), file) && ra.recent == old(ra.recent)
    ensures forall b | from <= b < from + 32 && b < MAX_BLOCK :: b in ra.window
  {
    var blocks := ra.Missing(from, MAX_BLOCK);
    for i := 0 to |blocks|
      invariant Coherent(ra.State(), file) && ra.recent == old(ra.recent)
      invariant forall b | b in old(ra.window) || b in blocks[..i] :: b in ra.window
    {
      ra.Put(blocks[i], if link(blocks[i] * DATA_CHUNK) then Some(Block(file, blocks[i])) else None);
    }
  }

  /** Keep this read's blocks for the next one, in whatever order the map yields them. */
  method RetainAll(ra: Reader, ghost file: Bytes, ready: map<nat, Bytes>)
    requires Coherent(ra.State(), file) && forall b | b in ready :: ready[b] == Block(file, b)
    modifies ra
    ensures Coherent(ra.State(), file)
  {
    var todo := ready.Keys;
    while todo != {}
      invariant todo <= ready.Keys && Coherent(ra.State(), file)
      decreases todo
    {
      var b :| b in todo;
      RetainCoherent(ra.State(), b, file);
      ra.Retain(b, ready[b]);
      todo := todo - {b};
    }
  }

  /** A read of a tracked handle, whatever its cache holds and whichever prefetches fail. */
  method ReadTracked(ra: Reader, file: Bytes, link: Link, prefetchLink: Link, offset: nat, size: nat)
    returns (r: Result<Bytes>)
    requires Coherent(ra.State(), file)
    modifies ra
    ensures Coherent(ra.State(), file)
    ensures r.Ok? ==> r.value == Slice(file, offset, offset + size)
    ensures (forall o :: link(o)) ==> r.Ok?
  {
    ObserveCoherent(ra.State(), offset, size, file);
    var prefetch := ra.Observe(offset, size);
    var first := BlockOf(offset);
    var last := BlockOf(offset + Max(size, 1) - 1);
    if prefetch { TopUp(ra, file, prefetchLink, last + 1); }
    var ready, need := Collect(ra, file, first, last);
    if need != [] {
      var fetched := FetchMissing(file, link, ready, need);
      if fetched.IoError? { return IoError; }
      ready := fetched.value;
    }
    var assembled := Assemble(ready, file, first, last);
    var skip := offset - first * DATA_CHUNK;
    var out := if skip >= |assembled| then [] else assembled[skip..Min(skip + size, |assembled|)];
    CutOut(file, first * DATA_CHUNK, (last + 1) * DATA_CHUNK, offset, size);
    RetainAll(ra, file, ready);
    return Ok(out);
  }

  /** The path for handles that are not tracked: plain chunked reads. */
  method ReadDirect(file: Bytes, link: Link, offset: nat, size: nat) returns (r: Result<Bytes>)
    ensures r.Ok? ==> r.value == Slice(file, offset, offset + size)
    ensures (forall o :: link(o)) ==> r.Ok?
  {
    var end := offset + size;
    var pos, out: Bytes := offset, [];
    while pos < end
      invariant offset <= pos <= end && out == Slice(file, offset, pos)
    {
      var want := Min(end - pos, DATA_CHUNK);
      if !link(pos) { return IoError; }
      var chunk := Slice(file, pos, pos + want);
      SliceJoins(file, offset, pos, pos + want);
      out := out + chunk;
      if |chunk| < want {
        assert Slice(file, offset, pos + want) == Slice(file, offset, end);
        return Ok(out);
      }
      pos := pos + want;
    }
    return Ok(out);
  }

  lemma WriteNext(file: Bytes, offset: nat, data: Bytes, done: nat, n: nat)
    requires done + n <= |data|
    ensures WriteAt(WriteAt(file, offset, data[..done]), offset + done, data[done..done + n]) == WriteAt(file, offset, data[..done + n])
  {
    WritesJoin(file, offset, data[..done], data[done..done + n]);
    assert data[..done] + data[done..done + n] == data[..done + n];
  }

  /** How many of `size` bytes land, `done` of them already: chunks are sent until the server refuses
      one, or takes nothing of it. */
  function LandedBy(accept: Acceptor, offset: nat, size: nat, done: nat): (n: nat)
    requires done <= size
    ensures done <= n <= size
    decreases size - done
  {
    if done == size then size
    else
      var len := Min(DATA_CHUNK, size - done);
      var answer := accept(offset + done, len);
      if answer.None? || answer.value == 0 then done
      else LandedBy(accept, offset, size, done + Min(answer.value, len))
  }

  /** Send the next chunk; zero bytes taken is a refusal. */
  method SendChunk(ghost file: Bytes, sofar: Bytes, offset: nat, data: Bytes, done: nat, accept: Acceptor)
    returns (after: Bytes, n: nat)
    requires done < |data| && sofar == WriteAt(file, offset, data[..done])
    ensures done + n <= |data| && after == WriteAt(file, offset, data[..done + n])
    ensures LandedBy(accept, offset, |data|, done) == if n == 0 then done else LandedBy(accept, offset, |data|, done + n)
  {
    var chunk := data[done..Min(done + DATA_CHUNK, |data|)];
    var answer := accept(offset + done, |chunk|);
    if answer.None? { return sofar, 0; }
    n := Min(answer.value, |chunk|);
    assert chunk[..n] == data[done..done + n];
    WriteNext(file, offset, data, done, n);
    after := WriteAt(sofar, offset + done, chunk[..n]);
  }

  /** Send a write chunk by chunk until the server refuses one, or takes nothing of it. */
  method SendChunks(file: Bytes, offset: nat, data: Bytes, accept: Acceptor)
    returns (after: Bytes, landed: nat, done: bool)
    ensures landed <= |data| && after == WriteAt(file, offset, data[..landed])
    ensures done <==> landed == |data|
    ensures landed == LandedBy(accept, offset, |data|, 0)
  {
    after, landed := file, 0;
    while landed < |data|
      invariant landed <= |data| && after == WriteAt(file, offset, data[..landed])
      invariant LandedBy(accept, offset, |data|, 0) == LandedBy(accept, offset, |data|, landed)
    {
      var n;
      after, n := SendChunk(file, after, offset, data, landed, accept);
      if n == 0 { return after, landed, false; }
      landed := landed + n;
    }
    return after, landed, true;
  }

  // -------------------------------------------------------------- the mount

  class Mount {
    var files: map<Path, Bytes>        // what the server stores
    var serverHandles: map<nat, Path>  // what the server has open
    var openFiles: map<nat, OpenState> // the handles this client tracks

    ghost function Readers(): set<Reader>
      reads this
    {
      set fh | fh in openFiles :: openFiles[fh].ra
    }

    /** Every tracked handle caches only what its file holds, and no two share a cache. */
    ghost predicate Valid()
      reads this, Readers()
    {
      && (forall fh | fh in serverHandles :: serverHandles[fh] in files)
      && (forall fh | fh in openFiles :: fh in serverHandles && serverHandles[fh] == openFiles[fh].path)
      && (forall fh | fh in openFiles :: Coherent(openFiles[fh].ra.State(), files[openFiles[fh].path]))
      && (forall f, g | f in openFiles && g in openFiles && openFiles[f].ra == openFiles[g].ra :: f == g)
    }

    constructor (files: map<Path, Bytes>)
      ensures Valid() && this.files == files && openFiles == map[] && serverHandles == map[]
    {
      this.files, this.serverHandles, this.openFiles := files, map[], map[];
    }

    /** Open a file; the server picks the handle number. */
    method Open(fh: nat, p: Path) returns (ok: bool)
      requires Valid() && fh !in serverHandles
      modifies this
      ensures Valid() && files == old(files)
      ensures ok == (p in files)
      ensures ok ==> fh in openFiles && openFiles[fh].path == p
      ensures forall f | f in old(openFiles) :: f in openFiles && openFiles[f] == old(openFiles)[f]
      ensures fresh(Readers() - old(Readers()))
    {
      if p !in files { return false; }
      var ra := new Reader();
      serverHandles := serverHandles[fh := p];
      openFiles := openFiles[fh := OpenState(p, ra)];
      return true;
    }

    /** Every successful read is the plain read of the server's file, whatever is cached. */
    method Read(fh: nat, offset: nat, size: nat, link: Link, prefetchLink: Link) returns (r: Result<Bytes>)
      requires Valid()
      modifies Readers()
      ensures Valid() && files == old(files) && openFiles == old(openFiles) && serverHandles == old(serverHandles)
      ensures r.Ok? ==> fh in serverHandles && r.value == Slice(files[serverHandles[fh]], offset, offset + size)
      ensures fh in serverHandles && (forall o :: link(o)) ==> r.Ok?
    {
      if fh !in serverHandles { return IoError; }
      var file := files[serverHandles[fh]];
      if fh !in openFiles {
        r := ReadDirect(file, link, offset, size);
        return;
      }
      assert openFiles[fh].ra in Readers();
      r := ReadTracked(openFiles[fh].ra, file, link, prefetchLink, offset, size);
    }

    /** Drop everything cached for `p` on every handle. */
    method MarkPathWritten(p: Path)
      modifies Readers()
      ensures openFiles == old(openFiles) && files == old(files) && serverHandles == old(serverHandles)
      ensures forall fh | fh in openFiles && openFiles[fh].path == p ::
                openFiles[fh].ra.window == map[] && openFiles[fh].ra.recent == []
      ensures forall ra | ra in Readers() ::
                ra.State() == old(ra.State()) || (ra.window == map[] && ra.recent == [])
    {
      var todo := openFiles.Keys;
      while todo != {}
        invariant todo <= openFiles.Keys
        invariant openFiles == old(openFiles) && files == old(files) && serverHandles == old(serverHandles)
        invariant forall fh | fh in openFiles && fh !in todo && openFiles[fh].path == p ::
                    openFiles[fh].ra.window == map[] && openFiles[fh].ra.recent == []
        invariant forall ra | ra in Readers() ::
                    ra.State() == old(ra.State()) || (ra.window == map[] && ra.recent == [])
        decreases todo
      {
        var fh :| fh in todo;
        if openFiles[fh].path == p {
          assert openFiles[fh].ra in Readers();
          openFiles[fh].ra.Clear();
        }
        todo := todo - {fh};
      }
    }

    /** New content for a path, with every cache of it emptied. */
    method Rewrite(p: Path, after: Bytes)
      requires Valid() && p in files
      modifies this`files, Readers()
      ensures Valid() && openFiles == old(openFiles) && serverHandles == old(serverHandles)
      ensures files == old(files)[p := after]
    {
      files := files[p := after];
      MarkPathWritten(p);
    }

    /** No handle of `p` caches a block that writing `bytes` would change. */
    ghost predicate Spared(p: Path, offset: nat, bytes: Bytes)
      requires p in files
      reads this, Readers()
    {
      forall h | h in openFiles && openFiles[h].path == p :: Spares(openFiles[h].ra.State(), files[p], offset, bytes)
    }

    /** Write-through in chunks. `landed` bytes reached the file; a full write empties every cache
        of the path. One that stops half way empties none, and leaves them right exactly when no
        handle caches a block the landed bytes changed. */
    method Write(fh: nat, offset: nat, data: Bytes, accept: Acceptor) returns (r: Result<nat>, landed: nat)
      requires Valid()
      modifies this`files, Readers()
      ensures openFiles == old(openFiles) && serverHandles == old(serverHandles)
      ensures landed <= |data| && (r.Ok? ==> r.value == landed == |data|)
      ensures files == if fh in serverHandles
                       then old(files)[serverHandles[fh] := WriteAt(old(files)[serverHandles[fh]], offset, data[..landed])]
                       else old(files)
      ensures (r.Ok? && fh in openFiles) || landed == 0 ==> Valid()
      ensures fh in serverHandles ==> landed == LandedBy(accept, offset, |data|, 0) && (r.Ok? <==> landed == |data|)
      ensures r.IoError? ==> forall ra | ra in Readers() :: ra.State() == old(ra.State())
      ensures r.IoError? && fh in serverHandles ==>
                (Valid() <==> old(Spared(serverHandles[fh], offset, data[..landed])))
    {
      if fh !in serverHandles {
        return if data == [] then Ok(0) else IoError, 0;
      }
      var after, done;
      after, landed, done := SendChunks(files[serverHandles[fh]], offset, data, accept);
      if done && fh in openFiles {
        Rewrite(serverHandles[fh], after);
      } else {
        assert landed == 0 ==> files[serverHandles[fh] := after] == files;
        ghost var p, before := serverHandles[fh], files[serverHandles[fh]];
        files := files[serverHandles[fh] := after];
        forall h | h in openFiles && openFiles[h].path == p
          ensures Coherent(openFiles[h].ra.State(), after) <==> Spares(openFiles[h].ra.State(), before, offset, data[..landed])
        {
          StaleExactly(openFiles[h].ra.State(), before, offset, data[..landed]);
        }
      }
      return if done then Ok(|data|) else IoError, landed;
    }

    /** Truncate or extend, then empty every cache of the path. */
    method SetSize(p: Path, size: nat, ok: bool) returns (r: Result<()>)
      requires Valid()
      modifies this`files, Readers()
      ensures Valid() && openFiles == old(openFiles) && serverHandles == old(serverHandles)
      ensures r.Ok? <==> ok && p in old(files)
      ensures files == if r.Ok? then old(files)[p := SetLen(old(files)[p], size)] else old(files)
      ensures r.Ok? ==>
                && |files[p]| == size
                && (forall i | 0 <= i < size :: files[p][i] == if i < |old(files)[p]| then old(files)[p][i] else 0)
    {
      if !ok || p !in files { return IoError; }
      Rewrite(p, SetLen(files[p], size));
      return Ok(());
    }
  }

  // ---------------------------------------------------- half-landed writes

  ghost predicate SameByte(file: Bytes, offset: nat, data: Bytes, i: nat)
    requires Min(offset, |file|) <= i < offset + |data|
  {
    i < |file| && file[i] == data[i - offset]
  }

  /** Every byte of block `b` that the write covers, or that zero-filling would add, was there before. */
  ghost predicate Untouched(file: Bytes, offset: nat, data: Bytes, b: nat) {
    forall i | b * DATA_CHUNK <= i < (b + 1) * DATA_CHUNK && Min(offset, |file|) <= i < offset + |data| ::
      SameByte(file, offset, data, i)
  }

  lemma BlockAt(file: Bytes, b: nat, k: nat)
    requires k < DATA_CHUNK && b * DATA_CHUNK + k < |file|
    ensures k < |Block(file, b)| && Block(file, b)[k] == file[b * DATA_CHUNK + k]
  {
  }

  lemma TouchedDiffers(file: Bytes, offset: nat, data: Bytes, after: Bytes, b: nat, i: nat)
    requires Wrote(file, offset, data, after) && b * DATA_CHUNK <= i < (b + 1) * DATA_CHUNK
    requires Min(offset, |file|) <= i < offset + |data| && !SameByte(file, offset, data, i)
    ensures Block(after, b) != Block(file, b)
  {
    var k := i - b * DATA_CHUNK;
    BlockAt(after, b, k);
    if i < |file| { BlockAt(file, b, k); }
  }

  lemma UntouchedSame(file: Bytes, offset: nat, data: Bytes, after: Bytes, b: nat)
    requires Wrote(file, offset, data, after) && data != [] && Untouched(file, offset, data, b)
    ensures Block(after, b) == Block(file, b)
  {
    var lo := b * DATA_CHUNK;
    var end := Max(lo, |file|);
    assert end < lo + DATA_CHUNK && end < offset + |data| ==> SameByte(file, offset, data, end);
    assert |Block(after, b)| == |Block(file, b)|;
    forall k | 0 <= k < |Block(file, b)|
      ensures Block(after, b)[k] == Block(file, b)[k]
    {
      BlockAt(file, b, k);
      BlockAt(after, b, k);
      if Min(offset, |file|) <= lo + k < offset + |data| { assert SameByte(file, offset, data, lo + k); }
    }
  }

  /** A cached block survives a write exactly when the write changes no byte of it. */
  lemma BlockSurvives(file: Bytes, offset: nat, data: Bytes, b: nat)
    ensures Block(WriteAt(file, offset, data), b) == Block(file, b) <==> data == [] || Untouched(file, offset, data, b)
  {
    if data != [] {
      var after := WriteAt(file, offset, data);
      WriteAtIs(file, offset, data);
      if Untouched(file, offset, data, b) {
        UntouchedSame(file, offset, data, after, b);
      } else {
        var i :| b * DATA_CHUNK <= i < (b + 1) * DATA_CHUNK && Min(offset, |file|) <= i < offset + |data|
                 && !SameByte(file, offset, data, i);
        TouchedDiffers(file, offset, data, after, b, i);
      }
    }
  }

  ghost predicate Holds(c: Cache, b: nat) {
    (b in c.window && c.window[b].Some?) || exists i :: 0 <= i < |c.recent| && c.recent[i].0 == b
  }

  /** Writing `bytes` changes no block the cache holds. */
  ghost predicate Spares(c: Cache, file: Bytes, offset: nat, bytes: Bytes) {
    bytes == [] || forall b | Holds(c, b) :: Untouched(file, offset, bytes, b)
  }

  /** After a write that landed without emptying the caches, a handle's cache is still right exactly
      when the landed bytes changed no block it holds. */
  lemma StaleExactly(c: Cache, file: Bytes, offset: nat, landed: Bytes)
    requires Coherent(c, file)
    ensures Coherent(c, WriteAt(file, offset, landed)) <==> Spares(c, file, offset, landed)
  {
    var after := WriteAt(file, offset, landed);
    forall b ensures Block(after, b) == Block(file, b) <==> landed == [] || Untouched(file, offset, landed, b) {
      BlockSurvives(file, offset, landed, b);
    }
    if Coherent(c, after) && landed != [] {
      forall b | Holds(c, b) ensures Untouched(file, offset, landed, b) {
        if !(b in c.window && c.window[b].Some?) {
          var i :| 0 <= i < |c.recent| && c.recent[i].0 == b;
          assert c.recent[i].1 == Block(after, b) == Block(file, b);
        }
      }
    }
    if landed == [] || forall b | Holds(c, b) :: Untouched(file, offset, landed, b) {
      forall b | b in c.window && c.window[b].Some? ensures c.window[b].value == Block(after, b) {
        assert Holds(c, b);
      }
      forall i | 0 <= i < |c.recent| ensures c.recent[i].1 == Block(after, c.recent[i].0) {
        assert Holds(c, c.recent[i].0);
      }
    }
  }

  // ------------------------------------------------ judging a write beforehand

  /** A server that takes `k` bytes of a write at `offset` and then refuses. */
  function StopAfter(offset: nat, k: nat): Acceptor {
    (o, len) => if o < offset + k then Some(offset + k - o) else None
  }

  /** Every length short of the whole can be what lands. */
  lemma {:induction false} AnyPrefixCanLand(offset: nat, size: nat, k: nat, done: nat)
    requires done <= k <= size
    ensures LandedBy(StopAfter(offset, k), offset, size, done) == k
    decreases size - done
  {
    if done < k {
      var len := Min(DATA_CHUNK, size - done);
      assert StopAfter(offset, k)(offset + done, len) == Some(k - done);
      AnyPrefixCanLand(offset, size, k, done + Min(k - done, len));
    } else if done < size {
      assert StopAfter(offset, k)(offset + done, Min(DATA_CHUNK, size - done)) == None;
    }
  }

  lemma ShorterSpares(c: Cache, file: Bytes, offset: nat, data: Bytes, k: nat, n: nat)
    requires k <= n <= |data| && Spares(c, file, offset, data[..n])
    ensures Spares(c, file, offset, data[..k])
  {
    if k > 0 {
      forall b: nat | Holds(c, b) ensures Untouched(file, offset, data[..k], b) {
        assert Untouched(file, offset, data[..n], b);
        forall i | b * DATA_CHUNK <= i < (b + 1) * DATA_CHUNK && Min(offset, |file|) <= i < offset + k
          ensures SameByte(file, offset, data[..k], i)
        {
          assert SameByte(file, offset, data[..n], i);
        }
      }
    }
  }

  ghost predicate SparesWhatever(c: Cache, file: Bytes, offset: nat, data: Bytes) {
    forall accept: Acceptor | LandedBy(accept, offset, |data|, 0) < |data| ::
      Spares(c, file, offset, data[..LandedBy(accept, offset, |data|, 0)])
  }

  /** What can be told before a write: it leaves a cache right however the server makes it fail
      exactly when all of its data but the last byte changes no cached block. */
  lemma SafeBeforehand(c: Cache, file: Bytes, offset: nat, data: Bytes)
    requires data != []
    ensures SparesWhatever(c, file, offset, data) <==> Spares(c, file, offset, data[..|data| - 1])
  {
    var n := |data| - 1;
    if SparesWhatever(c, file, offset, data) {
      AnyPrefixCanLand(offset, |data|, n, 0);
      assert LandedBy(StopAfter(offset, n), offset, |data|, 0) == n;
    }
    if Spares(c, file, offset, data[..n]) {
      forall accept: Acceptor | LandedBy(accept, offset, |data|, 0) < |data|
        ensures Spares(c, file, offset, data[..LandedBy(accept, offset, |data|, 0)])
      {
        ShorterSpares(c, file, offset, data, LandedBy(accept, offset, |data|, 0), n);
      }
    }
  }

  /** A concrete stale cache: one block is cached, the first chunk lands, the second is refused. */
  lemma RefusedSecondChunk()
    ensures var c, file := Cache(map[], [(0, [0])], 1, 1), [0];
            var data: Bytes := seq(DATA_CHUNK + 1, _ => 1);
            var accept: Acceptor := (o, len) => if o == 0 then Some(len) else None;
            && LandedBy(accept, 0, |data|, 0) == DATA_CHUNK
            && Coherent(c, file) && !Coherent(c, WriteAt(file, 0, data[..DATA_CHUNK]))
  {
    var c, file: Bytes := Cache(map[], [(0, [0])], 1, 1), [0];
    var data: Bytes := seq(DATA_CHUNK + 1, _ => 1);
    assert Block(file, 0) == [0];
    StaleExactly(c, file, 0, data[..DATA_CHUNK]);
    assert c.recent[0].0 == 0 && Holds(c, 0);
    assert !SameByte(file, 0, data[..DATA_CHUNK], 0);
    assert !Untouched(file, 0, data[..DATA_CHUNK], 0);
  }
}
