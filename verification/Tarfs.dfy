/** tarfs: a read-only file system over a block device that may fail. */
module Tarfs {
  import opened Wrappers
  import opened Ranges

  const BSIZE: nat := 4096
  const WORD: nat := U64_MAX + 1
  const DIRENT: nat := 32

  datatype Errno = ERANGE | EIO | ENOENT | ENOMEM | E2BIG

  /** The device as flat bytes; `dataSize` is the part tarfs may read and `bad` holds the blocks `sb_bread` cannot. */
  datatype Device = Device(image: seq<byte>, dataSize: nat, bad: set<nat>) {
    ghost predicate Valid() {
      dataSize <= |image| && |image| % BSIZE == 0 && dataSize <= U64_MAX
    }
  }

  function BlockOf(x: nat): nat {
    x / BSIZE
  }

  /** `sb_bread`: one whole block, or nothing. */
  function ReadBlock(d: Device, b: nat): Option<seq<byte>> {
    if b in d.bad || (b + 1) * BSIZE > |d.image| then None else Some(d.image[b * BSIZE..(b + 1) * BSIZE])
  }

  function Wrap(x: nat): nat {
    x % WORD
  }

  predicate Readable(d: Device, lo: nat, hi: nat) {
    forall x: nat :: lo <= x < hi ==> BlockOf(x) !in d.bad
  }

  /** `pos + len` neither wraps nor leaves the data part. */
  predicate InBounds(d: Device, pos: nat, len: nat) {
    pos + len <= d.dataSize
  }

  /** What a flat reader of the image would answer. */
  function ReadAt(d: Device, pos: nat, len: nat): (r: Result<seq<byte>, Errno>)
    requires d.Valid()
    ensures r.Ok? ==> |r.value| == len
  {
    if pos + len > U64_MAX then Err(ERANGE)
    else if !InBounds(d, pos, len) || !Readable(d, pos, pos + len) then Err(EIO)
    else Ok(d.image[pos..pos + len])
  }

  /** The two wrapping checks of the source, in true arithmetic. */
  lemma RangeChecks(d: Device, pos: nat, len: nat)
    requires d.Valid() && pos <= U64_MAX && len <= U64_MAX
    ensures Wrap(pos + len) < pos <==> pos + len > U64_MAX
    ensures InBounds(d, pos, len) <==> Wrap(pos + len) >= pos && Wrap(pos + len) <= d.dataSize
  {
    if pos + len <= U64_MAX {
      DivModUnique(pos + len, WORD, 0, pos + len);
    } else {
      DivModUnique(pos + len, WORD, 1, pos + len - WORD);
    }
  }

  /** How much of a range the block of its first byte holds. */
  function SegmentOf(pos: nat, len: nat): nat {
    Min(len, BSIZE - pos % BSIZE)
  }

  lemma BlockStart(d: Device, pos: nat, len: nat)
    requires d.Valid() && len > 0 && InBounds(d, pos, len)
    ensures pos == BlockOf(pos) * BSIZE + pos % BSIZE && (BlockOf(pos) + 1) * BSIZE <= |d.image|
  {
    assert |d.image| == |d.image| / BSIZE * BSIZE;
    assert BlockOf(pos) < |d.image| / BSIZE;
  }

  /** One segment lies in one block, at the offset the source computes, and the next one starts the next block. */
  lemma Segment(d: Device, pos: nat, len: nat)
    requires d.Valid() && len > 0 && InBounds(d, pos, len)
    ensures var b, o, n := BlockOf(pos), pos % BSIZE, SegmentOf(pos, len);
            && 0 < n && o + n <= BSIZE && (b + 1) * BSIZE <= |d.image|
            && d.image[b * BSIZE..(b + 1) * BSIZE][o..o + n] == d.image[pos..pos + n]
            && (forall x: nat :: pos <= x < pos + n ==> BlockOf(x) == b)
            && (n < len ==> BlockOf(pos + n) == b + 1)
  {
    var b, o, n := BlockOf(pos), pos % BSIZE, SegmentOf(pos, len);
    BlockStart(d, pos, len);
    forall x: nat | pos <= x < pos + n
      ensures BlockOf(x) == b
    {
      DivModUnique(x, BSIZE, b, o + (x - pos));
    }
    if n < len {
      DivModUnique(pos + n, BSIZE, b + 1, 0);
    }
  }

  /** `memcpy`. */
  method CopyIn(buf: array<byte>, at: nat, src: seq<byte>, start: nat, n: nat)
    requires at + n <= buf.Length && start + n <= |src|
    modifies buf
    ensures buf[..] == old(buf[..at]) + src[start..start + n] + old(buf[at + n..])
  {
    for i := 0 to n
      invariant buf[..at] == old(buf[..at]) && buf[at + n..] == old(buf[at + n..])
      invariant buf[at..at + i] == src[start..start + i]
    {
      buf[at + i] := src[start + i];
    }
  }

  /** The blocks that `done` bytes from `pos` occupy, in order. */
  ghost function BlockRun(pos: nat, done: nat): seq<nat> {
    if done == 0 then [] else seq(BlockOf(pos + done - 1) - BlockOf(pos) + 1, i => BlockOf(pos) + i)
  }

  lemma BlockRunGrows(d: Device, pos: nat, len: nat, done: nat)
    requires d.Valid() && InBounds(d, pos, len) && done < len
    requires done > 0 ==> BlockOf(pos + done) == BlockOf(pos + done - 1) + 1
    ensures var n := SegmentOf(pos + done, len - done);
            && done + n <= len && n > 0 && BlockRun(pos, done + n) == BlockRun(pos, done) + [BlockOf(pos + done)]
            && (done + n < len ==> BlockOf(pos + done + n) == BlockOf(pos + done + n - 1) + 1)
  {
    Segment(d, pos + done, len - done);
    var n := SegmentOf(pos + done, len - done);
    assert BlockOf(pos + done + n - 1) == BlockOf(pos + done);
  }

  /** `tarfs_dev_read`: fills `buf[off..off + len]` exactly as a flat reader would, touching each block once, in
      order, and no other part of the buffer. */
  method DevRead(d: Device, pos: nat, buf: array<byte>, off: nat, len: nat)
    returns (r: Option<Errno>, ghost touched: seq<nat>)
    requires d.Valid() && pos <= U64_MAX && len <= U64_MAX && off + len <= buf.Length
    modifies buf
    ensures r == match ReadAt(d, pos, len) case Ok(_) => None case Err(e) => Some(e)
    ensures r.None? ==> buf[off..off + len] == d.image[pos..pos + len] && touched == BlockRun(pos, len)
    ensures buf[..off] == old(buf[..off]) && buf[off + len..] == old(buf[off + len..])
  {
    hide Readable, BlockRun, ReadAt, BlockOf, Wrap, Device.Valid, ReadBlock, InBounds;
    touched := [];
    RangeChecks(d, pos, len);
    ReadOutcome(d, pos, len);
    if Wrap(pos + len) < pos {
      return Some(ERANGE), touched;
    }
    if Wrap(pos + len) > d.dataSize {
      return Some(EIO), touched;
    }
    r, touched := ReadSegments(d, pos, buf, off, len);
  }

  /** The loop over blocks, once the range is known to lie in the data part. */
  method ReadSegments(d: Device, pos: nat, buf: array<byte>, off: nat, len: nat)
    returns (r: Option<Errno>, ghost touched: seq<nat>)
    requires d.Valid() && InBounds(d, pos, len) && off + len <= buf.Length
    modifies buf
    ensures r == if Readable(d, pos, pos + len) then None else Some(EIO)
    ensures r.None? ==> pos + len <= |d.image| && buf[off..off + len] == d.image[pos..pos + len]
    ensures r.None? ==> touched == BlockRun(pos, len)
    ensures buf[..off] == old(buf[..off]) && buf[off + len..] == old(buf[off + len..])
  {
    hide Readable, BlockRun, ReadAt, BlockOf, Wrap, Device.Valid, ReadBlock, InBounds;
    touched := [];
    ReadOutcome(d, pos, len);
    var done := 0;
    while done < len
      invariant 0 <= done <= len && Readable(d, pos, pos + done)
      invariant buf[off..off + done] == d.image[pos..pos + done]
      invariant buf[..off] == old(buf[..off]) && buf[off + len..] == old(buf[off + len..])
      invariant touched == BlockRun(pos, done)
      invariant 0 < done < len ==> BlockOf(pos + done) == BlockOf(pos + done - 1) + 1
    {
      var offset := (pos + done) % BSIZE;
      var segment := Min(len - done, BSIZE - offset);
      NextSegment(d, pos, len, done);
      var bh := ReadBlock(d, BlockOf(pos + done));
      if bh.None? {
        return Some(EIO), touched;
      }
      CopySegment(d, pos, buf, off, len, done, bh.value, offset, segment);
      touched := touched + [BlockOf(pos + done)];
      done := done + segment;
    }
    r := None;
  }

  lemma ReadOutcome(d: Device, pos: nat, len: nat)
    requires d.Valid()
    ensures pos + len > U64_MAX ==> ReadAt(d, pos, len) == Err(ERANGE)
    ensures pos + len <= U64_MAX && !InBounds(d, pos, len) ==> ReadAt(d, pos, len) == Err(EIO)
    ensures InBounds(d, pos, len) ==>
              && pos + len <= |d.image| && pos + len <= U64_MAX
              && ReadAt(d, pos, len) == if Readable(d, pos, pos + len) then Ok(d.image[pos..pos + len]) else Err(EIO)
    ensures Readable(d, pos, pos) && BlockRun(pos, 0) == []
  {
  }

  /** The state of the transfer after one more segment, or why there is none. */
  lemma NextSegment(d: Device, pos: nat, len: nat, done: nat)
    requires d.Valid() && InBounds(d, pos, len) && done < len && Readable(d, pos, pos + done)
    requires done > 0 ==> BlockOf(pos + done) == BlockOf(pos + done - 1) + 1
    ensures var b, o, n := BlockOf(pos + done), (pos + done) % BSIZE, SegmentOf(pos + done, len - done);
            && n > 0 && BlockRun(pos, done + n) == BlockRun(pos, done) + [b]
            && (done + n < len ==> BlockOf(pos + done + n) == BlockOf(pos + done + n - 1) + 1)
            && (match ReadBlock(d, b)
                case None => b in d.bad && !Readable(d, pos, pos + len)
                case Some(block) =>
                  && Readable(d, pos, pos + done + n) && o + n <= |block|
                  && block[o..o + n] == d.image[pos + done..pos + done + n])
  {
    hide BlockOf, Readable, BlockRun, Device.Valid, SegmentOf;
    BlockRunGrows(d, pos, len, done);
    Segment(d, pos + done, len - done);
    SegmentReadable(d, pos, len, done);
  }

  lemma SegmentReadable(d: Device, pos: nat, len: nat, done: nat)
    requires d.Valid() && InBounds(d, pos, len) && done < len && Readable(d, pos, pos + done)
    ensures var b, n := BlockOf(pos + done), SegmentOf(pos + done, len - done);
            if b in d.bad then !Readable(d, pos, pos + len) else Readable(d, pos, pos + done + n)
  {
    hide BlockOf, Device.Valid, SegmentOf;
    var b, n := BlockOf(pos + done), SegmentOf(pos + done, len - done);
    Segment(d, pos + done, len - done);
    assert b in d.bad ==> !Readable(d, pos, pos + len) by {
      assert pos <= pos + done < pos + len;
    }
  }

  /** The copy of one segment, seen from the whole transfer. */
  method CopySegment(d: Device, pos: nat, buf: array<byte>, off: nat, len: nat, done: nat, block: seq<byte>,
                     offset: nat, n: nat)
    requires d.Valid() && InBounds(d, pos, len) && done + n <= len && off + len <= buf.Length && offset + n <= |block|
    requires block[offset..offset + n] == d.image[pos + done..pos + done + n]
    requires buf[off..off + done] == d.image[pos..pos + done]
    modifies buf
    ensures buf[off..off + done + n] == d.image[pos..pos + done + n]
    ensures buf[..off] == old(buf[..off]) && buf[off + len..] == old(buf[off + len..])
  {
    ghost var was := buf[..];
    CopyIn(buf, off + done, block, offset, n);
    ghost var now := buf[..];
    assert now == was[..off + done] + block[offset..offset + n] + was[off + done + n..];
    assert now[..off] == was[..off] && now[off + len..] == was[off + len..];
    assert now[off..off + done] == was[off..off + done];
    assert now[off + done..off + done + n] == block[offset..offset + n];
    assert d.image[pos..pos + done + n] == d.image[pos..pos + done] + d.image[pos + done..pos + done + n];
    assert now[off..off + done + n] == now[off..off + done] + now[off + done..off + done + n];
  }

  datatype CmpResult = Differs | Same | Broken

  /** Some byte differs in a block that can be read after all the blocks before it. */
  ghost predicate DiffersAt(d: Device, pos: nat, str: seq<byte>, x: nat)
    requires d.Valid() && InBounds(d, pos, |str|)
  {
    pos <= x < pos + |str| && d.image[x] != str[x - pos] && Readable(d, pos, x + 1)
  }

  /** What `tarfs_strcmp` must answer: 1 is `Same`, 0 is `Differs`, and `-EIO` is `Broken`. */
  ghost function Compare(d: Device, pos: nat, str: seq<byte>): CmpResult
    requires d.Valid()
  {
    if !InBounds(d, pos, |str|) then Differs
    else if exists x :: DiffersAt(d, pos, str, x) then Differs
    else if Readable(d, pos, pos + |str|) then Same
    else Broken
  }

  /** With readable blocks the answer is plain equality with the flat image. */
  lemma CompareIsEquality(d: Device, pos: nat, str: seq<byte>)
    requires d.Valid() && (InBounds(d, pos, |str|) ==> Readable(d, pos, pos + |str|))
    ensures Compare(d, pos, str) ==
        if InBounds(d, pos, |str|) && d.image[pos..pos + |str|] == str then Same else Differs
  {
    if InBounds(d, pos, |str|) && d.image[pos..pos + |str|] != str {
      var i :| 0 <= i < |str| && d.image[pos..pos + |str|][i] != str[i];
      assert DiffersAt(d, pos, str, pos + i);
    }
  }

  /** What comparing one segment settles. */
  lemma CompareSegment(d: Device, pos: nat, str: seq<byte>, done: nat, n: nat)
    requires d.Valid() && InBounds(d, pos, |str|) && 0 < n && done + n <= |str|
    requires d.image[pos..pos + done] == str[..done]
    ensures Readable(d, pos, pos + done + n) ==>
              if d.image[pos + done..pos + done + n] == str[done..done + n]
              then d.image[pos..pos + done + n] == str[..done + n]
              else exists x :: DiffersAt(d, pos, str, x)
    ensures BlockOf(pos + done) in d.bad ==> !Readable(d, pos, pos + |str|) && forall x :: !DiffersAt(d, pos, str, x)
  {
    if Readable(d, pos, pos + done + n) {
      if d.image[pos + done..pos + done + n] == str[done..done + n] {
        assert d.image[pos..pos + done + n] == d.image[pos..pos + done] + d.image[pos + done..pos + done + n];
      } else {
        var i :| 0 <= i < n && d.image[pos + done..pos + done + n][i] != str[done..done + n][i];
        assert DiffersAt(d, pos, str, pos + done + i);
      }
    }
    var at: nat := pos + done;
    if BlockOf(at) in d.bad {
      assert pos <= at < pos + |str|;
      forall x: nat | pos <= x < pos + |str| && Readable(d, pos, x + 1)
        ensures d.image[x] == str[x - pos]
      {
        assert x >= at ==> BlockOf(at) !in d.bad;
        assert d.image[pos..pos + done][x - pos] == str[..done][x - pos];
      }
    }
  }

  /** `tarfs_strcmp`: compares up to a block at a time. */
  method StrCmp(d: Device, pos: nat, str: seq<byte>) returns (r: CmpResult)
    requires d.Valid() && pos <= U64_MAX && |str| <= U64_MAX
    ensures r == Compare(d, pos, str)
  {
    hide Readable, BlockOf, Wrap, Device.Valid, DiffersAt, BlockRun, ReadBlock, InBounds;
    RangeChecks(d, pos, |str|);
    ReadOutcome(d, pos, |str|);
    if Wrap(pos + |str|) < pos || Wrap(pos + |str|) > d.dataSize {
      return Differs;
    }
    var done := 0;
    while done < |str|
      invariant 0 <= done <= |str| && Readable(d, pos, pos + done)
      invariant d.image[pos..pos + done] == str[..done]
      invariant 0 < done < |str| ==> BlockOf(pos + done) == BlockOf(pos + done - 1) + 1
    {
      var offset := (pos + done) % BSIZE;
      var segment := Min(|str| - done, BSIZE - offset);
      NextSegment(d, pos, |str|, done);
      CompareSegment(d, pos, str, done, segment);
      var bh := ReadBlock(d, BlockOf(pos + done));
      if bh.None? {
        return Broken;
      }
      if bh.value[offset..offset + segment] != str[done..done + segment] {
        return Differs;
      }
      done := done + segment;
    }
    CompareIsEquality(d, pos, str);
    r := Same;
  }

  /** Little-endian integers. */
  function Le(bs: seq<byte>): nat {
    if bs == [] then 0 else bs[0] as nat + 256 * Le(bs[1..])
  }

  function Pow256(n: nat): nat {
    if n == 0 then 1 else 256 * Pow256(n - 1)
  }

  lemma {:induction false} LeBound(bs: seq<byte>)
    ensures Le(bs) < Pow256(|bs|)
  {
    if bs != [] {
      LeBound(bs[1..]);
    }
  }

  lemma LeWord(bs: seq<byte>)
    requires |bs| == 8
    ensures Le(bs) <= U64_MAX
  {
    LeBound(bs);
    WordPower();
  }

  lemma WordPower()
    ensures Pow256(8) == WORD
  {
    assert Pow256(2) == 0x1_0000;
    assert Pow256(4) == 0x1_0000_0000;
    assert Pow256(6) == 0x1_0000_0000_0000;
  }

  /** The `n` bytes of a number, the lowest first. */
  function Bytes(x: nat, n: nat): (bs: seq<byte>)
    ensures |bs| == n
  {
    if n == 0 then [] else [(x % 256) as byte] + Bytes(x / 256, n - 1)
  }

  lemma {:induction false} BytesRead(x: nat, n: nat)
    requires x < Pow256(n)
    ensures Le(Bytes(x, n)) == x
  {
    if n > 0 {
      BytesRead(x / 256, n - 1);
    }
  }

  datatype Dirent = Dirent(ino: nat, nameOffset: nat, nameLen: nat, kind: byte)

  function DecodeDirent(bs: seq<byte>): Dirent
    requires |bs| == DIRENT
  {
    Dirent(Le(bs[0..8]), Le(bs[8..16]), Le(bs[16..24]), bs[24])
  }

  /** On disk an entry is three words and the type, padded to a fourth word. */
  lemma DirentLayout(e: Dirent, padding: seq<byte>)
    requires e.ino <= U64_MAX && e.nameOffset <= U64_MAX && e.nameLen <= U64_MAX && |padding| == 7
    ensures DecodeDirent(Bytes(e.ino, 8) + Bytes(e.nameOffset, 8) + Bytes(e.nameLen, 8) + [e.kind] + padding) == e
  {
    hide Bytes, Le;
    var bs := Bytes(e.ino, 8) + Bytes(e.nameOffset, 8) + Bytes(e.nameLen, 8) + [e.kind] + padding;
    assert bs[0..8] == Bytes(e.ino, 8) && bs[8..16] == Bytes(e.nameOffset, 8) && bs[16..24] == Bytes(e.nameLen, 8);
    WordPower();
    BytesRead(e.ino, 8);
    BytesRead(e.nameOffset, 8);
    BytesRead(e.nameLen, 8);
  }

  lemma DirentWords(bs: seq<byte>)
    requires |bs| == DIRENT
    ensures var e := DecodeDirent(bs); e.ino <= U64_MAX && e.nameOffset <= U64_MAX && e.nameLen <= U64_MAX
  {
    LeWord(bs[0..8]);
    LeWord(bs[8..16]);
    LeWord(bs[16..24]);
  }

  /** The types `readdir` passes on; any other is reported as `DT_UNKNOWN`. */
  function FilterKind(k: byte): byte {
    if k == 1 || k == 2 || k == 4 || k == 6 || k == 8 || k == 10 || k == 12 then k else 0
  }

  datatype Entry = Entry(name: seq<byte>, ino: nat, kind: byte)

  datatype Dir = Dir(offset: nat, size: nat) {
    /** The size rounded down to whole entries. */
    function Whole(): nat {
      size / DIRENT * DIRENT
    }

    /** The overflow checks that `readdir` and `lookup` make first. */
    predicate Sane() {
      Wrap(offset + Whole()) >= offset && Whole() < U64_MAX - DIRENT
    }
  }

  lemma SaneMeans(dir: Dir)
    requires dir.offset <= U64_MAX && dir.size <= U64_MAX
    ensures dir.Whole() <= dir.size < dir.Whole() + DIRENT && dir.Whole() % DIRENT == 0
    ensures dir.Sane() <==> dir.offset + dir.Whole() <= U64_MAX && dir.Whole() < U64_MAX - DIRENT
  {
    var w := dir.Whole();
    assert dir.size == dir.size / DIRENT * DIRENT + dir.size % DIRENT;
    DivModUnique(w, DIRENT, dir.size / DIRENT, 0);
    if dir.offset + w <= U64_MAX {
      DivModUnique(dir.offset + w, WORD, 0, dir.offset + w);
    } else {
      DivModUnique(dir.offset + w, WORD, 1, dir.offset + w - WORD);
    }
  }

  /** The directory entry at byte `pos` of a directory, as the flat image has it; names longer than `limit` do
      not fit in kernel memory. */
  function EntryAt(d: Device, limit: nat, dir: Dir, pos: nat): Result<Entry, Errno>
    requires d.Valid()
  {
    match ReadAt(d, dir.offset + pos, DIRENT)
    case Err(e) => Err(e)
    case Ok(bs) =>
      var e := DecodeDirent(bs);
      if e.nameLen > limit then Err(ENOMEM)
      else
        match ReadAt(d, e.nameOffset, e.nameLen)
        case Err(err) => Err(err)
        case Ok(name) => Ok(Entry(name, e.ino, FilterKind(e.kind)))
  }

  /** An entry as it is laid out on disk: listed with the name from where it says, its inode, and its type if `readdir`
      knows it. */
  lemma EntryDecoded(d: Device, limit: nat, dir: Dir, pos: nat, e: Dirent, padding: seq<byte>, name: seq<byte>)
    requires d.Valid() && e.ino <= U64_MAX && e.nameOffset <= U64_MAX && |padding| == 7 && |name| == e.nameLen <= limit
    requires ReadAt(d, dir.offset + pos, DIRENT) ==
      Ok(Bytes(e.ino, 8) + Bytes(e.nameOffset, 8) + Bytes(e.nameLen, 8) + [e.kind] + padding)
    requires ReadAt(d, e.nameOffset, e.nameLen) == Ok(name)
    ensures EntryAt(d, limit, dir, pos) ==
      Ok(Entry(name, e.ino, if e.kind in {1, 2, 4, 6, 8, 10, 12} then e.kind else 0))
  {
    hide Bytes, DecodeDirent, Device.Valid, Readable, InBounds;
    NameIsWord(d, e.nameOffset, e.nameLen);
    DirentLayout(e, padding);
  }

  lemma NameIsWord(d: Device, pos: nat, len: nat)
    requires d.Valid() && ReadAt(d, pos, len).Ok?
    ensures len <= U64_MAX
  {
  }

  /** The entries from `pos` on that a consumer with `room` for that many accepts. */
  function Accepted(d: Device, limit: nat, dir: Dir, pos: nat, room: nat): (es: seq<Entry>)
    requires d.Valid()
    ensures |es| <= room
    decreases room
  {
    if pos >= dir.Whole() || room == 0 then []
    else
      match EntryAt(d, limit, dir, pos)
      case Err(_) => []
      case Ok(e) => [e] + Accepted(d, limit, dir, pos + DIRENT, room - 1)
  }

  datatype DirCall = DirCall(status: Option<Errno>, pos: nat, entries: seq<Entry>)

  /** One `readdir` call that starts at `pos`. */
  function ReadDirCall(d: Device, limit: nat, dir: Dir, pos: nat, room: nat): DirCall
    requires d.Valid()
  {
    if pos % DIRENT != 0 then DirCall(Some(ENOENT), pos, [])
    else if !dir.Sane() then DirCall(Some(ERANGE), pos, [])
    else
      var es := Accepted(d, limit, dir, pos, room);
      var end := pos + DIRENT * |es|;
      DirCall(if es != [] || end >= dir.Whole() || EntryAt(d, limit, dir, end).Ok? then None
              else Some(EntryAt(d, limit, dir, end).error), end, es)
  }

  /** The body of the `readdir` loop up to `dir_emit`: reads the entry at `pos` through the two buffers. */
  method FetchEntry(d: Device, dir: Dir, limit: nat, pos: nat, diskDentry: array<byte>, nameBuffer: array<byte>)
    returns (r: Result<Entry, Errno>, buffer: array<byte>)
    requires d.Valid() && dir.offset + pos <= U64_MAX && diskDentry.Length == DIRENT && nameBuffer.Length <= limit
    requires diskDentry != nameBuffer
    modifies diskDentry, nameBuffer
    ensures r == EntryAt(d, limit, dir, pos)
    ensures buffer.Length <= limit && diskDentry != buffer && (buffer == nameBuffer || fresh(buffer))
  {
    hide Device.Valid, DecodeDirent, Readable, Dir.Whole;
    buffer := nameBuffer;
    ReadOutcome(d, dir.offset + pos, DIRENT);
    var ret, touched := DevRead(d, dir.offset + pos, diskDentry, 0, DIRENT);
    if ret.Some? {
      return Err(ret.value), buffer;
    }
    assert diskDentry[..] == diskDentry[0..0 + DIRENT];
    var e := DecodeDirent(diskDentry[..]);
    DirentWords(diskDentry[..]);
    if e.nameLen > buffer.Length {
      if e.nameLen > limit {
        return Err(ENOMEM), buffer;
      }
      buffer := new byte[e.nameLen];
    }
    ReadOutcome(d, e.nameOffset, e.nameLen);
    ret, touched := DevRead(d, e.nameOffset, buffer, 0, e.nameLen);
    if ret.Some? {
      return Err(ret.value), buffer;
    }
    assert buffer[..e.nameLen] == buffer[0..0 + e.nameLen];
    r := Ok(Entry(buffer[..e.nameLen], e.ino, FilterKind(e.kind)));
  }

  /** `tarfs_readdir`, for a consumer that accepts `room` entries and then refuses. */
  method ReadDir(d: Device, dir: Dir, limit: nat, orig: nat, room: nat) returns (call: DirCall)
    requires d.Valid() && dir.offset <= U64_MAX && dir.size <= U64_MAX
    ensures call == ReadDirCall(d, limit, dir, orig, room)
  {
    hide Device.Valid, EntryAt, Wrap, Dir.Whole;
    SaneMeans(dir);
    if orig % DIRENT != 0 {
      return DirCall(Some(ENOENT), orig, []);
    }
    var size := dir.Whole();
    if Wrap(dir.offset + size) < dir.offset || size >= U64_MAX - DIRENT {
      return DirCall(Some(ERANGE), orig, []);
    }
    var diskDentry, nameBuffer := new byte[DIRENT], new byte[0];
    var pos, entries := orig, [];
    while pos < size
      invariant orig <= pos == orig + DIRENT * |entries| && |entries| <= room
      invariant entries + Accepted(d, limit, dir, pos, room - |entries|) == Accepted(d, limit, dir, orig, room)
      invariant nameBuffer.Length <= limit && diskDentry != nameBuffer && fresh(nameBuffer)
    {
      var r;
      r, nameBuffer := FetchEntry(d, dir, limit, pos, diskDentry, nameBuffer);
      if r.Err? {
        return DirCall(if pos != orig then None else Some(r.error), pos, entries);
      }
      if |entries| == room {
        return DirCall(None, pos, entries);
      }
      assert entries + ([r.value] + Accepted(d, limit, dir, pos + DIRENT, room - |entries| - 1))
          == entries + [r.value] + Accepted(d, limit, dir, pos + DIRENT, room - |entries| - 1);
      entries := entries + [r.value];
      pos := pos + DIRENT;
    }
    call := DirCall(None, pos, entries);
  }

  /** What a call reports: a position between entries, a directory whose end overflows, or that its first entry cannot
      be read. In each case it has passed on nothing and stays where it was. Entries after that only end the call. */
  lemma CallFails(d: Device, limit: nat, dir: Dir, pos: nat, room: nat)
    requires d.Valid()
    ensures var call := ReadDirCall(d, limit, dir, pos, room);
            && (call.status.None? <==>
                  && pos % DIRENT == 0 && dir.Sane()
                  && (pos < dir.Whole() ==> EntryAt(d, limit, dir, pos).Ok?))
            && (call.status.Some? ==> call.entries == [] && call.pos == pos)
            && (pos % DIRENT != 0 ==> call.status == Some(ENOENT))
            && (pos % DIRENT == 0 && !dir.Sane() ==> call.status == Some(ERANGE))
            && (pos % DIRENT == 0 && dir.Sane() && call.status.Some? ==>
                  call.status == Some(EntryAt(d, limit, dir, pos).error))
  {
    hide EntryAt, Device.Valid, Dir.Whole, Dir.Sane;
  }

  /** The flat listing is the entries one after the other, and ends with the directory or before the first that cannot
      be read. */
  lemma {:induction false} AcceptedAre(d: Device, limit: nat, dir: Dir, pos: nat, room: nat)
    requires d.Valid()
    ensures var es := Accepted(d, limit, dir, pos, room);
            && (forall i :: 0 <= i < |es| ==> EntryAt(d, limit, dir, pos + DIRENT * i) == Ok(es[i]))
            && (forall i :: 0 <= i < |es| ==> pos + DIRENT * i < dir.Whole())
            && (|es| < room && pos + DIRENT * |es| < dir.Whole() ==>
                  EntryAt(d, limit, dir, pos + DIRENT * |es|).Err?)
    decreases room
  {
    hide EntryAt, Device.Valid, Dir.Whole;
    if pos < dir.Whole() && room > 0 && EntryAt(d, limit, dir, pos).Ok? {
      AcceptedAre(d, limit, dir, pos + DIRENT, room - 1);
      var es, rest := Accepted(d, limit, dir, pos, room), Accepted(d, limit, dir, pos + DIRENT, room - 1);
      assert es == [EntryAt(d, limit, dir, pos).value] + rest;
      forall i | 0 <= i < |es|
        ensures EntryAt(d, limit, dir, pos + DIRENT * i) == Ok(es[i]) && pos + DIRENT * i < dir.Whole()
      {
        if i > 0 {
          assert es[i] == rest[i - 1] && pos + DIRENT + DIRENT * (i - 1) == pos + DIRENT * i;
        }
      }
      assert pos + DIRENT + DIRENT * |rest| == pos + DIRENT * |es|;
    }
  }

  /** A consumer with more room gets the same entries and then the ones a second call would start with. */
  lemma {:induction false} AcceptedSplits(d: Device, limit: nat, dir: Dir, pos: nat, a: nat, b: nat)
    requires d.Valid()
    ensures var first := Accepted(d, limit, dir, pos, a);
            Accepted(d, limit, dir, pos, a + b) == first + Accepted(d, limit, dir, pos + DIRENT * |first|, b)
    decreases a
  {
    hide EntryAt, Device.Valid, Dir.Whole;
    if pos < dir.Whole() && a > 0 && EntryAt(d, limit, dir, pos).Ok? {
      AcceptedSplits(d, limit, dir, pos + DIRENT, a - 1, b);
      var rest := Accepted(d, limit, dir, pos + DIRENT, a - 1);
      assert Accepted(d, limit, dir, pos, a) == [EntryAt(d, limit, dir, pos).value] + rest;
      assert pos + DIRENT + DIRENT * |rest| == pos + DIRENT * (|rest| + 1);
    }
  }

  lemma AcceptedNone(d: Device, limit: nat, dir: Dir, pos: nat)
    requires d.Valid()
    ensures Accepted(d, limit, dir, pos, 0) == []
  {
  }

  /** A run of calls, each from the position the one before it left, with all accepted entries in order. */
  function Calls(d: Device, limit: nat, dir: Dir, pos: nat, rooms: seq<nat>): DirCall
    requires d.Valid()
  {
    if rooms == [] then DirCall(None, pos, [])
    else
      var before := Calls(d, limit, dir, pos, rooms[..|rooms| - 1]);
      var last := ReadDirCall(d, limit, dir, before.pos, rooms[|rooms| - 1]);
      DirCall(last.status, last.pos, before.entries + last.entries)
  }

  function Rooms(rooms: seq<nat>): nat {
    if rooms == [] then 0 else Rooms(rooms[..|rooms| - 1]) + rooms[|rooms| - 1]
  }

  /** The flat listing of a directory: its entries in order, up to the first one that cannot be read. */
  function Listing(d: Device, limit: nat, dir: Dir): seq<Entry>
    requires d.Valid()
  {
    Accepted(d, limit, dir, 0, dir.Whole() / DIRENT)
  }

  /** However the consumer cuts a run of `readdir` calls, it accepts what one call with all the room together
      would give it, and stands right behind it. */
  lemma {:induction false} CallsResume(d: Device, limit: nat, dir: Dir, rooms: seq<nat>)
    requires d.Valid() && dir.Sane()
    ensures var c := Calls(d, limit, dir, 0, rooms);
            c.entries == Accepted(d, limit, dir, 0, Rooms(rooms)) && c.pos == DIRENT * |c.entries|
  {
    hide EntryAt, Device.Valid, Dir.Whole, Accepted, Dir.Sane;
    AcceptedNone(d, limit, dir, 0);
    if rooms != [] {
      var front, room := rooms[..|rooms| - 1], rooms[|rooms| - 1];
      CallsResume(d, limit, dir, front);
      AcceptedSplits(d, limit, dir, 0, Rooms(front), room);
      MultipleMod(DIRENT, |Calls(d, limit, dir, 0, front).entries|);
    }
  }

  /** Extra room beyond the number of entries makes no difference. */
  lemma {:induction false} RoomEnough(d: Device, limit: nat, dir: Dir, pos: nat, a: nat, b: nat)
    requires d.Valid() && pos + DIRENT * a >= dir.Whole()
    ensures Accepted(d, limit, dir, pos, a + b) == Accepted(d, limit, dir, pos, a)
    decreases a
  {
    hide EntryAt, Device.Valid, Dir.Whole;
    if a > 0 {
      RoomEnough(d, limit, dir, pos + DIRENT, a - 1, b);
    }
  }

  /** Resumable listing: the accepted entries of any run are a prefix of the flat listing, and the whole of it
      once the run stands at the end of the directory. */
  lemma ListingResumes(d: Device, limit: nat, dir: Dir, rooms: seq<nat>)
    requires d.Valid() && dir.Sane() && dir.offset <= U64_MAX && dir.size <= U64_MAX
    ensures var c := Calls(d, limit, dir, 0, rooms);
            && c.entries <= Listing(d, limit, dir)
            && (c.pos >= dir.Whole() || Rooms(rooms) >= dir.Whole() / DIRENT ==> c.entries == Listing(d, limit, dir))
  {
    hide EntryAt, Device.Valid, Dir.Whole, Accepted, Dir.Sane, Calls, Rooms;
    CallsResume(d, limit, dir, rooms);
    SaneMeans(dir);
    var n, k := dir.Whole() / DIRENT, Rooms(rooms);
    assert dir.Whole() == DIRENT * n;
    if k <= n {
      AcceptedSplits(d, limit, dir, 0, k, n - k);
    } else {
      RoomEnough(d, limit, dir, 0, n, k - n);
    }
  }

  datatype LookupResult = AskInode(ino: nat) | LookupError(errno: Errno)

  /** What `tarfs_lookup` must answer from byte `cur` of the directory on. */
  ghost function LookupFrom(d: Device, dir: Dir, name: seq<byte>, cur: nat): LookupResult
    requires d.Valid()
    decreases dir.Whole() - cur
  {
    if cur >= dir.Whole() then LookupError(ENOENT)
    else
      match ReadAt(d, dir.offset + cur, DIRENT)
      case Err(e) => LookupError(e)
      case Ok(bs) =>
        var e := DecodeDirent(bs);
        if e.nameLen != |name| then LookupFrom(d, dir, name, cur + DIRENT)
        else
          match Compare(d, e.nameOffset, name)
          case Broken => LookupError(EIO)
          case Same => AskInode(e.ino)
          case Differs => LookupFrom(d, dir, name, cur + DIRENT)
  }

  /** `tarfs_lookup`, up to the inode it asks for. */
  method Lookup(d: Device, dir: Dir, name: seq<byte>) returns (r: LookupResult)
    requires d.Valid() && dir.offset <= U64_MAX && dir.size <= U64_MAX && |name| <= U64_MAX
    ensures r == if dir.Sane() then LookupFrom(d, dir, name, 0) else LookupError(ERANGE)
  {
    hide Device.Valid, ReadAt, DecodeDirent, Compare, Wrap, Dir.Whole;
    SaneMeans(dir);
    var size := dir.Whole();
    if Wrap(dir.offset + size) < dir.offset || size >= U64_MAX - DIRENT {
      return LookupError(ERANGE);
    }
    var diskDentry := new byte[DIRENT];
    var cur := 0;
    while cur < size
      invariant LookupFrom(d, dir, name, cur) == LookupFrom(d, dir, name, 0)
    {
      ReadOutcome(d, dir.offset + cur, DIRENT);
      var ret, touched := DevRead(d, dir.offset + cur, diskDentry, 0, DIRENT);
      if ret.Some? {
        return LookupError(ret.value);
      }
      assert diskDentry[..] == diskDentry[0..0 + DIRENT];
      var e := DecodeDirent(diskDentry[..]);
      DirentWords(diskDentry[..]);
      if |name| == e.nameLen {
        var c := StrCmp(d, e.nameOffset, name);
        if c == Broken {
          return LookupError(EIO);
        }
        if c == Same {
          return AskInode(e.ino);
        }
      }
      cur := cur + DIRENT;
    }
    r := LookupError(ENOENT);
  }

  /** One entry of the scan: where the whole entry can be read, `lookup` compares its name and nothing else. */
  lemma LookupStep(d: Device, limit: nat, dir: Dir, name: seq<byte>, cur: nat)
    requires d.Valid() && cur < dir.Whole() && EntryAt(d, limit, dir, cur).Ok?
    ensures var e := EntryAt(d, limit, dir, cur).value;
            LookupFrom(d, dir, name, cur) ==
                if e.name == name then AskInode(e.ino) else LookupFrom(d, dir, name, cur + DIRENT)
  {
    var e := DecodeDirent(ReadAt(d, dir.offset + cur, DIRENT).value);
    if e.nameLen == |name| {
      CompareIsEquality(d, e.nameOffset, name);
    }
  }

  ghost predicate Unreadable(d: Device, bs: Result<seq<byte>, Errno>, name: seq<byte>)
    requires d.Valid() && (bs.Ok? ==> |bs.value| == DIRENT)
  {
    bs.Ok? ==>
      var e := DecodeDirent(bs.value); e.nameLen == |name| && Compare(d, e.nameOffset, name) == Broken
  }

  /** An entry that cannot be read ends a lookup that has not found the name before, with the error of the read, and so
      does one of the right length whose name cannot be read as far as it is the same. */
  lemma {:induction false} LookupStops(d: Device, limit: nat, dir: Dir, name: seq<byte>, cur: nat, k: nat)
    requires d.Valid() && cur + DIRENT * k < dir.Whole()
    requires forall i :: 0 <= i < k ==>
      EntryAt(d, limit, dir, cur + DIRENT * i).Ok? && EntryAt(d, limit, dir, cur + DIRENT * i).value.name != name
    requires Unreadable(d, ReadAt(d, dir.offset + cur + DIRENT * k, DIRENT), name)
    ensures var bs := ReadAt(d, dir.offset + cur + DIRENT * k, DIRENT);
            LookupFrom(d, dir, name, cur) == LookupError(if bs.Err? then bs.error else EIO)
    decreases k
  {
    hide EntryAt, Device.Valid, Dir.Whole, Compare, ReadAt, DecodeDirent;
    if k > 0 {
      assert cur + DIRENT * 0 == cur;
      LookupStep(d, limit, dir, name, cur);
      forall i | 0 <= i < k - 1
        ensures EntryAt(d, limit, dir, cur + DIRENT + DIRENT * i).Ok?
        ensures EntryAt(d, limit, dir, cur + DIRENT + DIRENT * i).value.name != name
      {
        assert cur + DIRENT + DIRENT * i == cur + DIRENT * (i + 1);
      }
      assert dir.offset + (cur + DIRENT) + DIRENT * (k - 1) == dir.offset + cur + DIRENT * k;
      LookupStops(d, limit, dir, name, cur + DIRENT, k - 1);
    }
  }

  /** The entries from the `i`-th one on that carry a name. */
  predicate FirstNamed(es: seq<Entry>, name: seq<byte>, i: nat) {
    i < |es| && es[i].name == name && forall j :: 0 <= j < i ==> es[j].name != name
  }

  lemma {:induction false} LookupFollows(d: Device, limit: nat, dir: Dir, name: seq<byte>, pos: nat, room: nat)
    requires d.Valid() && pos + DIRENT * room == dir.Whole() && |Accepted(d, limit, dir, pos, room)| == room
    ensures var es := Accepted(d, limit, dir, pos, room);
            && (forall i: nat :: FirstNamed(es, name, i) ==> LookupFrom(d, dir, name, pos) == AskInode(es[i].ino))
            && ((forall i :: 0 <= i < |es| ==> es[i].name != name) <==>
                LookupFrom(d, dir, name, pos) == LookupError(ENOENT))
    decreases room
  {
    hide EntryAt, Device.Valid, Dir.Whole, Compare, ReadAt, DecodeDirent;
    if room > 0 {
      var es, rest := Accepted(d, limit, dir, pos, room), Accepted(d, limit, dir, pos + DIRENT, room - 1);
      assert EntryAt(d, limit, dir, pos).Ok? && es == [EntryAt(d, limit, dir, pos).value] + rest;
      LookupStep(d, limit, dir, name, pos);
      LookupFollows(d, limit, dir, name, pos + DIRENT, room - 1);
      NamedSplit(es, EntryAt(d, limit, dir, pos).value, rest, name);
      forall i: nat | FirstNamed(es, name, i)
        ensures LookupFrom(d, dir, name, pos) == AskInode(es[i].ino)
      {
        assert i > 0 ==> es[i] == rest[i - 1];
      }
    }
  }

  lemma NamedSplit(es: seq<Entry>, e: Entry, rest: seq<Entry>, name: seq<byte>)
    requires es == [e] + rest
    ensures forall i: nat :: FirstNamed(es, name, i) ==>
              if i == 0 then e.name == name && es[0] == e else e.name != name && FirstNamed(rest, name, i - 1)
    ensures (forall i :: 0 <= i < |es| ==> es[i].name != name) <==>
              e.name != name && (forall i :: 0 <= i < |rest| ==> rest[i].name != name)
  {
    assert es[0] == e;
    assert forall i :: 0 < i < |es| ==> es[i] == rest[i - 1];
    assert forall i :: 0 <= i < |rest| ==> rest[i] == es[i + 1];
  }

  /** Lookup agrees with listing: where the whole directory can be listed, `lookup` asks for the inode of the
      first listed entry with that name, and reports `ENOENT` exactly when no entry has it. */
  lemma LookupAgrees(d: Device, limit: nat, dir: Dir, name: seq<byte>)
    requires d.Valid() && dir.offset <= U64_MAX && dir.size <= U64_MAX
    requires |Listing(d, limit, dir)| == dir.Whole() / DIRENT
    ensures var es := Listing(d, limit, dir);
            && (forall i: nat :: FirstNamed(es, name, i) ==> LookupFrom(d, dir, name, 0) == AskInode(es[i].ino))
            && ((forall i :: 0 <= i < |es| ==> es[i].name != name) <==>
                LookupFrom(d, dir, name, 0) == LookupError(ENOENT))
  {
    SaneMeans(dir);
    assert DIRENT * (dir.Whole() / DIRENT) == dir.Whole();
    LookupFollows(d, limit, dir, name, 0, dir.Whole() / DIRENT);
  }

  const INODE: nat := 32

  /** The inode-table checks of `tarfs_fill_super`, in `u64` arithmetic. */
  function TableCheck(tableOffset: nat, inodeCount: nat, dataSize: nat): Option<Errno> {
    if tableOffset >= dataSize then Some(E2BIG)
    else if inodeCount > U64_MAX / INODE then Some(ERANGE)
    else
      var end := Wrap(Wrap(inodeCount * INODE) + tableOffset);
      if end < tableOffset then Some(ERANGE) else if end > dataSize then Some(E2BIG) else None
  }

  /** The offset `tarfs_iget` reads an inode from, in `u64` arithmetic. */
  function InodeOffset(tableOffset: nat, ino: nat): nat
    requires ino > 0
  {
    Wrap(tableOffset + Wrap(INODE * (ino - 1)))
  }

  /** The mount checks pass exactly when the table is a proper part of the data, in true arithmetic. */
  lemma TableCheckMeans(d: Device, tableOffset: nat, inodeCount: nat)
    requires d.Valid() && tableOffset <= U64_MAX && inodeCount <= U64_MAX
    ensures TableCheck(tableOffset, inodeCount, d.dataSize).None? <==>
              tableOffset < d.dataSize && tableOffset + INODE * inodeCount <= d.dataSize
    ensures TableCheck(tableOffset, inodeCount, d.dataSize) == Some(ERANGE) <==>
              tableOffset < d.dataSize && tableOffset + INODE * inodeCount > U64_MAX
  {
    var bytes := inodeCount * INODE;
    if inodeCount <= U64_MAX / INODE {
      DivModUnique(bytes, WORD, 0, bytes);
      if bytes + tableOffset <= U64_MAX {
        DivModUnique(bytes + tableOffset, WORD, 0, bytes + tableOffset);
      } else {
        DivModUnique(bytes + tableOffset, WORD, 1, bytes + tableOffset - WORD);
      }
    }
  }

  /** Mount checks suffice: for every inode number in range the offset does not wrap and the read of the inode
      passes both range checks of `tarfs_dev_read`, and different inodes never overlap. */
  lemma MountChecksSuffice(d: Device, tableOffset: nat, inodeCount: nat, ino: nat)
    requires d.Valid() && tableOffset <= U64_MAX && inodeCount <= U64_MAX
    requires TableCheck(tableOffset, inodeCount, d.dataSize).None? && 1 <= ino <= inodeCount
    ensures InodeOffset(tableOffset, ino) == tableOffset + INODE * (ino - 1)
    ensures InBounds(d, InodeOffset(tableOffset, ino), INODE)
    ensures forall other: nat :: 1 <= other < ino ==>
        InodeOffset(tableOffset, other) + INODE <= InodeOffset(tableOffset, ino)
  {
    TableCheckMeans(d, tableOffset, inodeCount);
    forall k: nat | 1 <= k <= ino
      ensures InodeOffset(tableOffset, k) == tableOffset + INODE * (k - 1)
    {
      var x := INODE * (k - 1);
      DivModUnique(x, WORD, 0, x);
      DivModUnique(tableOffset + x, WORD, 0, tableOffset + x);
    }
  }

  /** `i_size` seen through the signed type that `readpage` compares with. */
  function Signed(x: nat): int {
    if x >= 0x8000_0000_0000_0000 then x - WORD else x
  }

  /** How many bytes of page `index` the file covers. */
  function Filled(size: nat, index: nat): nat {
    if index * BSIZE < Signed(size) then Min(BSIZE, Signed(size) - index * BSIZE) else 0
  }

  /** What a page of a file must hold: the file's bytes followed by zeros, or only zeros after an error. */
  function PageOf(d: Device, dataOffset: nat, size: nat, index: nat): (r: Result<seq<byte>, Errno>)
    requires d.Valid()
    ensures r.Ok? ==> |r.value| == BSIZE
  {
    var n := Filled(size, index);
    if n == 0 then Ok(seq(BSIZE, _ => 0 as byte))
    else
      match ReadAt(d, Wrap(dataOffset + index * BSIZE), n)
      case Err(_) => Err(EIO)
      case Ok(bs) => Ok(bs + seq(BSIZE - n, _ => 0 as byte))
  }

  /** `tarfs_readpage`. */
  method ReadPage(d: Device, dataOffset: nat, size: nat, index: nat, buf: array<byte>) returns (r: Option<Errno>)
    requires d.Valid() && dataOffset <= U64_MAX && size <= U64_MAX && buf.Length == BSIZE
    modifies buf
    ensures match PageOf(d, dataOffset, size, index)
            case Ok(page) => r.None? && buf[..] == page
            case Err(e) => r == Some(e) && buf[..] == seq(BSIZE, _ => 0 as byte)
  {
    hide Device.Valid, ReadAt;
    var offset, fillsize := index * BSIZE, 0;
    r := None;
    if offset < Signed(size) {
      fillsize := Min(BSIZE, Signed(size) - offset);
      var pos := Wrap(dataOffset + offset);
      ReadOutcome(d, pos, fillsize);
      var ret, touched := DevRead(d, pos, buf, 0, fillsize);
      if ret.Some? {
        fillsize := 0;
        r := Some(EIO);
      }
    }
    ghost var head := buf[..fillsize];
    assert head == buf[0..0 + fillsize];
    ZeroFrom(buf, fillsize);
  }

  /** `memset` of the rest of a page. */
  method ZeroFrom(buf: array<byte>, start: nat)
    requires start <= buf.Length
    modifies buf
    ensures buf[..] == old(buf[..start]) + seq(buf.Length - start, _ => 0 as byte)
  {
    for i := start to buf.Length
      invariant buf[..start] == old(buf[..start]) && forall k :: start <= k < i ==> buf[k] == 0
    {
      buf[i] := 0;
    }
  }

  /** A page fails just when the file covers part of it and that part cannot be read. */
  lemma PageFails(d: Device, dataOffset: nat, size: nat, index: nat)
    requires d.Valid() && size <= U64_MAX
    ensures var at := index * BSIZE;
            var pos := (dataOffset + at) % 0x1_0000_0000_0000_0000;
            PageOf(d, dataOffset, size, index) == Err(EIO) <==>
              && at < size < 0x8000_0000_0000_0000
              && var end := pos + Min(BSIZE, size - at);
                 end > d.dataSize || exists x: nat :: pos <= x < end && BlockOf(x) in d.bad
    ensures PageOf(d, dataOffset, size, index).Err? ==> PageOf(d, dataOffset, size, index) == Err(EIO)
  {
  }

  lemma ReadablePart(d: Device, lo: nat, hi: nat, lo': nat, hi': nat)
    requires Readable(d, lo, hi) && lo <= lo' && hi' <= hi
    ensures Readable(d, lo', hi')
  {
  }

  /** The pages of a file that lies in readable data are the file, cut every 4096 bytes and padded with zeros, just as
      long as its size is positive as a signed number; otherwise they are all zeros. */
  lemma PagesAreTheFile(d: Device, dataOffset: nat, size: nat, index: nat, k: nat)
    requires d.Valid() && InBounds(d, dataOffset, size) && Readable(d, dataOffset, dataOffset + size) && k < BSIZE
    ensures var page, at := PageOf(d, dataOffset, size, index), index * BSIZE + k;
            && page.Ok?
            && page.value[k] == if at < size < 0x8000_0000_0000_0000 then d.image[dataOffset + at] else 0
  {
    hide Readable, ReadAt;
    var at := index * BSIZE;
    if at < size < 0x8000_0000_0000_0000 {
      var n := Filled(size, index);
      DivModUnique(dataOffset + at, WORD, 0, dataOffset + at);
      ReadablePart(d, dataOffset, dataOffset + size, dataOffset + at, dataOffset + at + n);
      ReadOutcome(d, dataOffset + at, n);
      assert Wrap(dataOffset + at) == dataOffset + at;
      assert k < n ==> d.image[dataOffset + at..dataOffset + at + n][k] == d.image[dataOffset + at + k];
    }
  }

  /** Whatever the device holds, a size that is negative as a signed number makes every page zeros, and no error, though
      no device has that many bytes to read. */
  lemma LargeFileLost(d: Device, dataOffset: nat, size: nat, index: nat)
    requires d.Valid() && d.dataSize < 0x8000_0000_0000_0000 <= size <= U64_MAX
    ensures PageOf(d, dataOffset, size, index) == Ok(seq(BSIZE, _ => 0 as byte))
    ensures ReadAt(d, dataOffset, size).Err?
  {
    hide Readable, ReadAt;
    assert Signed(size) < 0 && Filled(size, index) == 0;
    assert PageOf(d, dataOffset, size, index).value == seq(BSIZE, _ => 0 as byte);
    ReadOutcome(d, dataOffset, size);
  }

  /** One block of ones, under an inode that claims 2^63 bytes: the first page is zeros. */
  lemma OnesReadAsZeros()
    ensures var n, d := 0x8000_0000_0000_0000, Device(seq(BSIZE, _ => 1 as byte), BSIZE, {});
            && d.Valid()
            && PageOf(d, 0, BSIZE, 0) == Ok(d.image)
            && PageOf(d, 0, n, 0) == Ok(seq(BSIZE, _ => 0 as byte))
            && ReadAt(d, 0, n).Err?
  {
    var n, d := 0x8000_0000_0000_0000, Device(seq(BSIZE, _ => 1 as byte), BSIZE, {});
    LargeFileLost(d, 0, n, 0);
    forall k: nat | k < BSIZE
      ensures PageOf(d, 0, BSIZE, 0).Ok? && PageOf(d, 0, BSIZE, 0).value[k] == d.image[k]
    {
      PagesAreTheFile(d, 0, BSIZE, 0, k);
    }
    PagesAreTheFile(d, 0, BSIZE, 0, 0);
    assert PageOf(d, 0, BSIZE, 0).value == d.image;
  }
}
