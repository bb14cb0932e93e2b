/** Paging a directory out to the kernel.
    Models `push_dirent` of `crates/alloyfs-mount-kernel/src/abi.rs`, `op_readdir` of
    `crates/alloyfs-mount-kernel/src/server.rs` and `alloyfs_readdir_remote` of
    `kernel/alloyfs/alloyfs_main.c`. The listing does not change between calls. */
module Dirents {
  import opened Common
  import opened LittleEndian

  const MAX_PAYLOAD: nat := 128 * 1024
  const MAX_NAME: nat := 255
  const DIRENT_LEN: nat := 24
  const DOTS: nat := 2
  const DT_DIR: nat := 4
  const DT_REG: nat := 8

  type U64 = x: nat | x < 0x1_0000_0000_0000_0000

  datatype Entry = Entry(name: Bytes, ino: U64, isDir: bool)

  datatype Wire = Wire(ino: nat, off: nat, ty: nat, name: Bytes)

  /** The records of a reply, and whether an illegal one ends it. */
  datatype Parsed = Parsed(records: seq<Wire>, illegal: bool)

  datatype Reply = Page(bytes: Bytes) | Einval

  datatype Status = Done | Failed

  function TypeOf(e: Entry): nat {
    if e.isDir then DT_DIR else DT_REG
  }

  function DirentSize(namelen: nat): (size: nat)
    ensures size >= DIRENT_LEN + namelen
  {
    (DIRENT_LEN + namelen + 7) / 8 * 8
  }

  /** Records start on multiples of eight and waste less than eight bytes. */
  lemma DirentSizeIs(namelen: nat)
    ensures DirentSize(namelen) % 8 == 0 && 24 + namelen <= DirentSize(namelen) < 24 + namelen + 8
  {
  }

  predicate Named(name: Bytes) {
    1 <= |name| <= MAX_NAME
  }

  function Min(a: nat, b: nat): nat { if a <= b then a else b }

  // ---------------------------------------------------------------- encoding

  function Encode(w: Wire): (bs: Bytes)
    ensures |bs| == DirentSize(|w.name|)
  {
    ToLE(w.ino, 8) + ToLE(w.off, 8) + ToLE(|w.name|, 4) + ToLE(w.ty, 4) + w.name
    + seq(DirentSize(|w.name|) - DIRENT_LEN - |w.name|, _ => 0 as Byte)
  }

  function NameLen(buf: Bytes): nat
    requires |buf| >= DIRENT_LEN
  {
    FromLE(buf[16..20])
  }

  /** The record at the head of a buffer is one the kernel accepts. */
  predicate Legal(buf: Bytes)
    requires |buf| >= DIRENT_LEN
  {
    1 <= NameLen(buf) <= MAX_NAME && DirentSize(NameLen(buf)) <= |buf|
  }

  function Head(buf: Bytes): Wire
    requires |buf| >= DIRENT_LEN && Legal(buf)
  {
    Wire(FromLE(buf[0..8]), FromLE(buf[8..16]), FromLE(buf[20..24]), buf[DIRENT_LEN..DIRENT_LEN + NameLen(buf)])
  }

  function Parse(buf: Bytes): Parsed {
    if |buf| < DIRENT_LEN then Parsed([], false)
    else if !Legal(buf) then Parsed([], true)
    else Before(Head(buf), Parse(buf[DirentSize(NameLen(buf))..]))
  }

  function Before(w: Wire, p: Parsed): Parsed {
    Parsed([w] + p.records, p.illegal)
  }

  predicate Fits(w: Wire) {
    Named(w.name) && w.ino < Limit(8) && w.off < Limit(8) && w.ty < Limit(4)
  }

  /** One record is read back from the front of any buffer. */
  lemma HeadOfEncode(w: Wire, rest: Bytes)
    requires Fits(w)
    ensures var buf := Encode(w) + rest;
            |buf| >= DIRENT_LEN && Legal(buf) && Head(buf) == w && DirentSize(NameLen(buf)) == |Encode(w)|
  {
    var buf := Encode(w) + rest;
    Widths();
    FromToLE(w.ino, 8);
    FromToLE(w.off, 8);
    FromToLE(|w.name|, 4);
    FromToLE(w.ty, 4);
    assert buf[0..8] == ToLE(w.ino, 8);
    assert buf[8..16] == ToLE(w.off, 8);
    assert buf[16..20] == ToLE(|w.name|, 4);
    assert buf[20..24] == ToLE(w.ty, 4);
    assert buf[DIRENT_LEN..DIRENT_LEN + |w.name|] == w.name;
  }

  function EncodeAll(ws: seq<Wire>): Bytes {
    if ws == [] then [] else EncodeAll(ws[..|ws| - 1]) + Encode(ws[|ws| - 1])
  }

  lemma EncodeAllLast(ws: seq<Wire>, w: Wire)
    ensures EncodeAll(ws + [w]) == EncodeAll(ws) + Encode(w)
  {
    assert (ws + [w])[..|ws|] == ws;
  }

  lemma Associates(a: Bytes, b: Bytes, c: Bytes)
    ensures (a + b) + c == a + (b + c)
  {
  }

  lemma {:induction false} EncodeAllHead(ws: seq<Wire>)
    requires ws != []
    ensures EncodeAll(ws) == Encode(ws[0]) + EncodeAll(ws[1..])
  {
    if |ws| == 1 {
      assert ws[..0] == [] && ws[1..] == [];
    } else {
      var init, last := ws[..|ws| - 1], ws[|ws| - 1];
      EncodeAllHead(init);
      EncodeAllLast(init[1..], last);
      assert init[1..] + [last] == ws[1..];
      Associates(Encode(ws[0]), EncodeAll(init[1..]), Encode(last));
    }
  }

  /** A page is read back as exactly the records that were written. */
  lemma {:induction false} ParseEncodeAll(ws: seq<Wire>)
    requires forall w | w in ws :: Fits(w)
    ensures Parse(EncodeAll(ws)) == Parsed(ws, false)
  {
    if ws != [] {
      EncodeAllHead(ws);
      HeadOfEncode(ws[0], EncodeAll(ws[1..]));
      ParseEncodeAll(ws[1..]);
      var buf := EncodeAll(ws);
      assert buf[|Encode(ws[0])|..] == EncodeAll(ws[1..]);
      assert [ws[0]] + ws[1..] == ws;
    }
  }

  /** Append one record if it is named properly and fits. */
  method PushDirent(out: Bytes, limit: nat, w: Wire) returns (pushed: bool, grown: Bytes)
    ensures pushed <==> Named(w.name) && |out| + DirentSize(|w.name|) <= limit
    ensures grown == if pushed then out + Encode(w) else out
  {
    var size := DirentSize(|w.name|);
    if w.name == [] || |w.name| > MAX_NAME || |out| + size > limit { return false, out; }
    grown := out + ToLE(w.ino, 8);
    grown := grown + ToLE(w.off, 8);
    grown := grown + ToLE(|w.name|, 4);
    grown := grown + ToLE(w.ty, 4);
    grown := grown + w.name;
    grown := grown + seq(size - DIRENT_LEN - |w.name|, _ => 0 as Byte);
    return true, grown;
  }

  // ------------------------------------------------------------------ paging

  /** A listing the kernel can number: every cursor fits 64 bits. */
  ghost predicate Countable(entries: seq<Entry>) {
    |entries| + DOTS < Limit(8)
  }

  /** Child `i` as sent: its cursor resumes after it. */
  function Record(entries: seq<Entry>, i: nat): Wire
    requires i < |entries|
  {
    Wire(entries[i].ino, i + DOTS + 1, TypeOf(entries[i]), entries[i].name)
  }

  function Records(entries: seq<Entry>, lo: nat, hi: nat): (ws: seq<Wire>)
    requires lo <= hi <= |entries|
    ensures |ws| == hi - lo && forall k | 0 <= k < hi - lo :: ws[k] == Record(entries, lo + k)
  {
    seq(hi - lo, k requires 0 <= k < hi - lo => Record(entries, lo + k))
  }

  /** A legal name whose record fits a page of its own. */
  predicate Sendable(e: Entry, limit: nat) {
    Named(e.name) && DirentSize(|e.name|) <= limit
  }

  /** The first child from `lo` on that no page can hold, or the end. */
  function FirstUnsent(entries: seq<Entry>, lo: nat, limit: nat): (g: nat)
    requires lo <= |entries|
    ensures lo <= g <= |entries|
    ensures forall i | lo <= i < g :: Sendable(entries[i], limit)
    ensures g < |entries| ==> !Sendable(entries[g], limit)
    decreases |entries| - lo
  {
    if lo == |entries| || !Sendable(entries[lo], limit) then lo else FirstUnsent(entries, lo + 1, limit)
  }

  /** `page` holds children `first` to `upto` and there was no room, or no way, to send the next. */
  ghost predicate PageOf(entries: seq<Entry>, first: nat, upto: nat, limit: nat, page: Bytes)
    requires first <= |entries|
  {
    && first <= upto <= FirstUnsent(entries, first, limit)
    && page == EncodeAll(Records(entries, first, upto)) && |page| <= limit
    && (upto < FirstUnsent(entries, first, limit) ==> |page| + DirentSize(|entries[upto].name|) > limit)
  }

  lemma PageGrows(entries: seq<Entry>, lo: nat, hi: nat)
    requires lo <= hi < |entries|
    ensures EncodeAll(Records(entries, lo, hi + 1)) == EncodeAll(Records(entries, lo, hi)) + Encode(Record(entries, hi))
  {
    EncodeAllLast(Records(entries, lo, hi), Record(entries, hi));
    assert Records(entries, lo, hi + 1) == Records(entries, lo, hi) + [Record(entries, hi)];
  }

  /** As many children as fit, in order. */
  method FillPage(entries: seq<Entry>, first: nat, limit: nat) returns (page: Bytes, upto: nat)
    requires first <= |entries|
    ensures PageOf(entries, first, upto, limit, page)
    ensures page == [] <==> upto == first
  {
    page, upto := [], first;
    ghost var stop := FirstUnsent(entries, first, limit);
    while upto < |entries|
      invariant first <= upto <= stop
      invariant page == EncodeAll(Records(entries, first, upto)) && |page| <= limit
      invariant page == [] <==> upto == first
    {
      var pushed;
      PageGrows(entries, first, upto);
      pushed, page := PushDirent(page, limit, Record(entries, upto));
      if !pushed { break; }
      assert upto != stop;
      upto := upto + 1;
    }
  }

  /** One page of the listing. It is an error only if a child is left and none can be sent. */
  method OpReaddir(entries: seq<Entry>, offset: nat, size: nat) returns (reply: Reply, upto: nat)
    ensures var first := if offset < DOTS then 0 else offset - DOTS;
            if first >= |entries| then reply == Page([])
            else if reply.Page? then upto > first && PageOf(entries, first, upto, Min(size, MAX_PAYLOAD), reply.bytes)
            else PageOf(entries, first, first, Min(size, MAX_PAYLOAD), [])
  {
    var limit := Min(size, MAX_PAYLOAD);
    var first := if offset < DOTS then 0 else offset - DOTS;
    if first >= |entries| { return Page([]), first; }
    var page;
    page, upto := FillPage(entries, first, limit);
    if page == [] { return Einval, upto; }
    return Page(page), upto;
  }

  // -------------------------------------------------------- the kernel's side

  function Joined(done: seq<Wire>, p: Parsed): Parsed {
    Parsed(done + p.records, p.illegal)
  }

  lemma JoinedStep(done: seq<Wire>, w: Wire, p: Parsed)
    ensures Joined(done + [w], p) == Joined(done, Before(w, p))
  {
    assert done + [w] + p.records == done + ([w] + p.records);
  }

  /** Check and read the record at `pos`; nothing past the end of the reply is looked at. */
  method ReadRecord(buf: Bytes, pos: nat) returns (r: Option<Wire>, next: nat)
    requires pos + DIRENT_LEN <= |buf|
    ensures r.None? ==> Parse(buf[pos..]) == Parsed([], true)
    ensures r.Some? ==> pos < next <= |buf| && Named(r.value.name)
                        && Parse(buf[pos..]) == Before(r.value, Parse(buf[next..]))
  {
    var rest := buf[pos..];
    var size := DirentSize(NameLen(rest));
    if NameLen(rest) == 0 || NameLen(rest) > MAX_NAME || pos + size > |buf| { return None, pos; }
    assert rest[size..] == buf[pos + size..];
    return Some(Head(rest)), pos + size;
  }

  /** Whatever the bytes, every record read from them has a legal name. */
  lemma {:induction false} ParseNamed(buf: Bytes)
    ensures forall w | w in Parse(buf).records :: Named(w.name)
  {
    if |buf| >= DIRENT_LEN && Legal(buf) { ParseNamed(buf[DirentSize(NameLen(buf))..]); }
  }

  /** Walk one reply, handing records to a consumer that takes `room` more. Any bytes are accepted
      as input; nothing outside them is read. */
  method WalkReply(buf: Bytes, cursor: nat, room: nat)
    returns (emitted: seq<Wire>, next: nat, full: bool, illegal: bool)
    ensures emitted == Parse(buf).records[..Min(room, |Parse(buf).records|)]
    ensures full <==> room < |Parse(buf).records|
    ensures illegal <==> Parse(buf).illegal && !full
    ensures next == if emitted == [] then cursor else emitted[|emitted| - 1].off
  {
    emitted, next := [], cursor;
    var pos := 0;
    assert buf[0..] == buf;
    while pos + DIRENT_LEN <= |buf|
      invariant pos <= |buf| && |emitted| <= room
      invariant Joined(emitted, Parse(buf[pos..])) == Parse(buf)
      invariant next == if emitted == [] then cursor else emitted[|emitted| - 1].off
    {
      var w, after := ReadRecord(buf, pos);
      if w.None? { return emitted, next, false, true; }
      if |emitted| == room { return emitted, next, true, false; }
      JoinedStep(emitted, w.value, Parse(buf[after..]));
      emitted := emitted + [w.value];
      next := w.value.off;
      pos := after;
    }
    return emitted, next, false, false;
  }

  datatype Turn = End | Error | Full | More

  /** One request and the walk over its reply. */
  method FetchPage(entries: seq<Entry>, cursor: nat, size: nat, room: nat)
    returns (got: seq<Wire>, next: nat, turn: Turn)
    requires Countable(entries) && DOTS <= cursor <= |entries| + DOTS
    ensures var first := cursor - DOTS; var g := FirstUnsent(entries, first, Min(size, MAX_PAYLOAD));
            && cursor <= next <= g + DOTS && next - cursor <= room
            && got == Records(entries, first, next - DOTS)
            && (turn == End <==> first == |entries|)
            && (turn == Error <==> first == g < |entries|)
            && (turn == More ==> next > cursor)
            && (turn == Full ==> next - cursor == room && next < g + DOTS)
  {
    ghost var first := cursor - DOTS;
    var reply, upto := OpReaddir(entries, cursor, size);
    if reply.Einval? {
      NothingFits(entries, first, Min(size, MAX_PAYLOAD));
      return [], cursor, Error;
    }
    if reply.bytes == [] { return [], cursor, End; }
    PageParses(entries, first, upto, Min(size, MAX_PAYLOAD), reply.bytes);
    var full, illegal;
    got, next, full, illegal := WalkReply(reply.bytes, cursor, room);
    RecordsPrefix(entries, first, upto, |got|);
    return got, next, if illegal then Error else if full then Full else More;
  }

  /** A child that can be sent fits an empty page, so an empty page means the next one cannot. */
  lemma NothingFits(entries: seq<Entry>, first: nat, limit: nat)
    requires first <= |entries| && PageOf(entries, first, first, limit, [])
    ensures FirstUnsent(entries, first, limit) == first
  {
  }

  lemma PageParses(entries: seq<Entry>, first: nat, upto: nat, limit: nat, page: Bytes)
    requires Countable(entries) && first <= |entries| && PageOf(entries, first, upto, limit, page)
    ensures Parse(page) == Parsed(Records(entries, first, upto), false)
  {
    Widths();
    ParseEncodeAll(Records(entries, first, upto));
  }

  lemma RecordsPrefix(entries: seq<Entry>, lo: nat, hi: nat, k: nat)
    requires lo + k <= hi <= |entries|
    ensures Records(entries, lo, hi)[..k] == Records(entries, lo, lo + k)
    ensures k > 0 ==> Records(entries, lo, lo + k)[k - 1].off == lo + k + DOTS
  {
  }

  /** One READDIR of the kernel: fetch and hand out pages until the consumer is full, the directory
      ends, or an error. It hands out the children from the cursor up to the first that cannot be
      sent, each once and in order, and leaves the cursor after the last one. */
  method ReaddirRemote(entries: seq<Entry>, cursor: nat, size: nat, room: nat)
    returns (emitted: seq<Wire>, next: nat, status: Status)
    requires Countable(entries) && DOTS <= cursor <= |entries| + DOTS
    ensures var first := cursor - DOTS; var g := FirstUnsent(entries, first, Min(size, MAX_PAYLOAD));
            var stop := Min(first + room, g);
            && emitted == Records(entries, first, stop)
            && next == stop + DOTS
            && (status == Failed <==> stop == g < |entries|)
  {
    emitted, next := [], cursor;
    ghost var first, limit := cursor - DOTS, Min(size, MAX_PAYLOAD);
    while true
      invariant cursor <= next <= FirstUnsent(entries, first, limit) + DOTS && next - cursor <= room
      invariant emitted == Records(entries, first, next - DOTS)
      decreases |entries| + DOTS - next
    {
      SameStop(entries, first, next - DOTS, limit);
      var got, after, turn := FetchPage(entries, next, size, room - |emitted|);
      emitted := emitted + got;
      next := after;
      match turn
      case End => return emitted, next, Done;
      case Error => return emitted, next, Failed;
      case Full => return emitted, next, Done;
      case More =>
    }
  }

  lemma {:induction false} SameStop(entries: seq<Entry>, lo: nat, mid: nat, limit: nat)
    requires lo <= |entries| && lo <= mid <= FirstUnsent(entries, lo, limit)
    ensures FirstUnsent(entries, mid, limit) == FirstUnsent(entries, lo, limit)
    decreases mid - lo
  {
    if lo < mid { SameStop(entries, lo + 1, mid, limit); }
  }

  function Sum(rooms: seq<nat>): nat {
    if rooms == [] then 0 else Sum(rooms[..|rooms| - 1]) + rooms[|rooms| - 1]
  }

  /** A whole listing, for any reply size and however the consumer's buffers cut it up: every child
      once and in order, up to the first that no page can hold. With room for all, it is complete
      exactly when every child can be sent, which for replies of 280 bytes or more means a name of
      1 to 255 bytes. */
  method ListDirectory(entries: seq<Entry>, size: nat, rooms: seq<nat>) returns (listed: seq<Wire>)
    requires Countable(entries)
    ensures listed == Records(entries, 0, Min(Sum(rooms), FirstUnsent(entries, 0, Min(size, MAX_PAYLOAD))))
    ensures Sum(rooms) >= |entries| ==>
              (listed == Records(entries, 0, |entries|)
               <==> forall e | e in entries :: Sendable(e, Min(size, MAX_PAYLOAD)))
    ensures forall k | 0 <= k < |listed| && k < |entries| ::
              && listed[k].name == entries[k].name && listed[k].ino == entries[k].ino
              && listed[k].ty == (if entries[k].isDir then 4 else 8) && listed[k].off == k + 3
    ensures size >= 280 ==> forall e | e in entries :: Sendable(e, Min(size, MAX_PAYLOAD)) <==> 1 <= |e.name| <= 255
  {
    listed := [];
    var cursor := DOTS;
    ghost var limit := Min(size, MAX_PAYLOAD);
    ghost var stop := FirstUnsent(entries, 0, limit);
    for i := 0 to |rooms|
      invariant cursor - DOTS == Min(Sum(rooms[..i]), stop) && listed == Records(entries, 0, cursor - DOTS)
    {
      assert rooms[..i + 1][..i] == rooms[..i];
      SameStop(entries, 0, cursor - DOTS, limit);
      var got, next, _ := ReaddirRemote(entries, cursor, size, rooms[i]);
      RecordsJoin(entries, 0, cursor - DOTS, next - DOTS);
      listed := listed + got;
      cursor := next;
    }
    assert rooms[..|rooms|] == rooms;
    Complete(entries, limit);
  }

  lemma RecordsJoin(entries: seq<Entry>, lo: nat, mid: nat, hi: nat)
    requires lo <= mid <= hi <= |entries|
    ensures Records(entries, lo, mid) + Records(entries, mid, hi) == Records(entries, lo, hi)
  {
  }

  lemma Complete(entries: seq<Entry>, limit: nat)
    ensures FirstUnsent(entries, 0, limit) == |entries| <==> forall e | e in entries :: Sendable(e, limit)
  {
    var g := FirstUnsent(entries, 0, limit);
    if g < |entries| { assert entries[g] in entries; }
  }
}
