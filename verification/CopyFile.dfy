/** Uploading a file in chunks: they gather in a temporary file, which is renamed when it has the right size. */
module CopyFile {
  import opened Wrappers

  type Bytes = seq<byte>

  /** An absolute path that ends in a file name. */
  datatype Path = Path(dir: seq<string>, name: string)

  const CONTAINER_BASE := ["run", "kata-containers"]

  type Files = map<Path, Bytes>

  datatype Request = Request(path: Path, offset: int, data: Bytes, size: int)

  datatype Fault = OutsideBase | BadOffset

  /** Where the extension starts: the last dot, unless the name begins with it. */
  function LastDot(name: string): Option<nat> {
    if name == [] then None
    else
      var n := |name| - 1;
      if name[n] == '.' then Some(n) else LastDot(name[..n])
  }

  lemma {:induction false} LastDotMeans(name: string)
    ensures match LastDot(name)
            case None => '.' !in name
            case Some(i) => i < |name| && name[i] == '.' && '.' !in name[i + 1..]
  {
    if name != [] {
      var n := |name| - 1;
      if name[n] != '.' {
        LastDotMeans(name[..n]);
        assert name == name[..n] + [name[n]];
        if LastDot(name).Some? {
          var i := LastDot(name).value;
          assert name[i + 1..] == name[..n][i + 1..] + [name[n]];
        }
      }
    }
  }

  function Stem(name: string): (r: string)
    ensures r <= name
  {
    LastDotMeans(name);
    var dot := LastDot(name);
    if dot.None? || dot.value == 0 then name else name[..dot.value]
  }

  /** The name without its last dot and what follows, where there is one after the first character. */
  lemma StemMeans(name: string)
    ensures (forall i :: 0 < i < |name| ==> name[i] != '.') ==> Stem(name) == name
    ensures (exists i :: 0 < i < |name| && name[i] == '.') ==>
      Stem(name) != [] && exists ext :: '.' !in ext && name == Stem(name) + "." + ext
  {
    LastDotMeans(name);
    var dot := LastDot(name);
    if dot.Some? && dot.value > 0 {
      assert name == name[..dot.value] + "." + name[dot.value + 1..];
    } else if dot.Some? {
      assert forall i :: 0 < i < |name| ==> name[i] == name[1..][i - 1];
    }
  }

  function TempName(name: string): string {
    Stem(name) + ".tmp"
  }

  lemma {:induction false} LastDotIs(name: string, n: nat)
    requires n < |name| && name[n] == '.' && '.' !in name[n + 1..]
    ensures LastDot(name) == Some(n)
  {
    var m := |name| - 1;
    if n < m {
      assert name[m] == name[n + 1..][m - n - 1];
      assert name[n + 1..] == name[..m][n + 1..] + [name[m]];
      LastDotIs(name[..m], n);
    }
  }

  /** The temporary file is the file itself just when the name has the extension already. */
  lemma TempIsOwnName(name: string)
    ensures TempName(name) == name <==> |name| > 4 && name[|name| - 4..] == ".tmp"
  {
    LastDotMeans(name);
    var n := |name| - 4;
    if n > 0 && name[n..] == ".tmp" {
      assert name[n] == name[n..][0] && name[n + 1..] == name[n..][1..];
      LastDotIs(name, n);
      assert name == name[..n] + name[n..];
    }
    if TempName(name) == name {
      assert name[|Stem(name)|..] == ".tmp";
      assert name[|Stem(name)|] == '.';
    }
  }

  /** Two files in a directory gather in one temporary file just when their names differ in the extension alone. */
  lemma TempsMeet(a: Path, b: Path)
    ensures Temp(a) == Temp(b) <==> a.dir == b.dir && Stem(a.name) == Stem(b.name)
  {
    var x, y := Stem(a.name), Stem(b.name);
    if Temp(a) == Temp(b) {
      assert |x| == |y| && (x + ".tmp")[..|x|] == x && (y + ".tmp")[..|x|] == y;
    }
  }

  function Temp(p: Path): Path {
    p.(name := TempName(p.name))
  }

  /** Write into a file, filling a gap before the offset with zeros; writing nothing leaves it alone. */
  function WriteAt(c: Bytes, offset: nat, data: Bytes): Bytes {
    if data == [] then c
    else
      seq(Max(|c|, offset + |data|) as nat, i requires 0 <= i =>
        if offset <= i < offset + |data| then data[i - offset] else if i < |c| then c[i] else 0)
  }

  function Held(files: Files, p: Path): Bytes {
    if p in files then files[p] else []
  }

  predicate InBase(p: Path) {
    CONTAINER_BASE <= p.dir + [p.name]
  }

  /** The path begins with the two names of the base directory. */
  lemma InBaseMeans(p: Path)
    ensures InBase(p) <==>
      || (|p.dir| >= 2 && p.dir[0] == "run" && p.dir[1] == "kata-containers")
      || p == Path(["run"], "kata-containers")
  {
    var all := p.dir + [p.name];
    assert |all| >= 2 ==> all[..2] == [all[0], all[1]];
  }

  function RequestFault(r: Request): Option<Fault> {
    if !InBase(r.path) then Some(OutsideBase)
    else if r.offset < 0 && r.data != [] then Some(BadOffset)
    else None
  }

  /** The files after a request for a regular file. */
  function Copied(files: Files, r: Request): Files {
    var t := Temp(r.path);
    if !InBase(r.path) then files
    else if r.offset < 0 && r.data != [] then files[t := Held(files, t)]
    else
      var c := WriteAt(Held(files, t), Max(r.offset, 0) as nat, r.data);
      if |c| != r.size || t == r.path then files[t := c]
      else (files - {t})[r.path := c]
  }

  /** A request that is refused changes the contents of no file. */
  lemma RefusedChangesNothing(files: Files, r: Request, q: Path)
    requires RequestFault(r).Some?
    ensures Held(Copied(files, r), q) == Held(files, q)
    ensures q in Copied(files, r) <==> q in files || (RequestFault(r) == Some(BadOffset) && q == Temp(r.path))
  {
  }

  /** The two files an upload touches. */
  datatype Pair = Pair(dest: Option<Bytes>, tmp: Option<Bytes>)

  function Look(files: Files, p: Path): Option<Bytes> {
    if p in files then Some(files[p]) else None
  }

  function Seen(files: Files, p: Path): Pair {
    Pair(Look(files, p), Look(files, Temp(p)))
  }

  function Stale(x: Pair): Bytes {
    if x.tmp.Some? then x.tmp.value else []
  }

  function Stepped(x: Pair, r: Request): Pair {
    if !InBase(r.path) then x
    else if r.offset < 0 && r.data != [] then Pair(x.dest, Some(Stale(x)))
    else
      var c := WriteAt(Stale(x), Max(r.offset, 0) as nat, r.data);
      if |c| != r.size then Pair(x.dest, Some(c)) else Pair(Some(c), None)
  }

  /** A request for another file that shares neither name nor temporary file. */
  predicate Apart(q: Path, p: Path) {
    q != p && q != Temp(p) && Temp(q) != p && Temp(q) != Temp(p)
  }

  function After(files: Files, steps: seq<Request>): Files {
    if steps == [] then files else Copied(After(files, steps[..|steps| - 1]), steps[|steps| - 1])
  }

  function Own(steps: seq<Request>, p: Path): seq<Request> {
    if steps == [] then []
    else
      var n := |steps| - 1;
      Own(steps[..n], p) + if steps[n].path == p then [steps[n]] else []
  }

  function AllStepped(x: Pair, reqs: seq<Request>): Pair {
    if reqs == [] then x else Stepped(AllStepped(x, reqs[..|reqs| - 1]), reqs[|reqs| - 1])
  }

  /** Whatever else is uploaded in between, the two files see the requests for their own path alone. */
  lemma {:induction false} OthersPassBy(files: Files, steps: seq<Request>, p: Path)
    requires Temp(p) != p
    requires forall i :: 0 <= i < |steps| ==> steps[i].path == p || Apart(steps[i].path, p)
    ensures Seen(After(files, steps), p) == AllStepped(Seen(files, p), Own(steps, p))
  {
    if steps != [] {
      var n := |steps| - 1;
      OthersPassBy(files, steps[..n], p);
      OneStep(After(files, steps[..n]), steps[n], p);
      if steps[n].path == p {
        assert Own(steps, p)[..|Own(steps, p)| - 1] == Own(steps[..n], p);
      } else {
        assert Own(steps, p) == Own(steps[..n], p);
      }
    }
  }

  lemma OneStep(files: Files, r: Request, p: Path)
    requires Temp(p) != p && (r.path == p || Apart(r.path, p))
    ensures Seen(Copied(files, r), p) == if r.path == p then Stepped(Seen(files, p), r) else Seen(files, p)
  {
    hide WriteAt;
  }

  function Cat(chunks: seq<Bytes>): Bytes {
    if chunks == [] then [] else Cat(chunks[..|chunks| - 1]) + chunks[|chunks| - 1]
  }

  /** The `i`th request of an upload in order, each chunk starting where the one before ended. */
  function Chunk(p: Path, chunks: seq<Bytes>, i: nat): Request
    requires i < |chunks|
  {
    Request(p, |Cat(chunks[..i])|, chunks[i], |Cat(chunks)|)
  }

  /** The two files after the first `k` chunks. */
  function Stage(x: Pair, p: Path, chunks: seq<Bytes>, k: nat): Pair
    requires k <= |chunks|
  {
    if k == 0 then x else Stepped(Stage(x, p, chunks, k - 1), Chunk(p, chunks, k - 1))
  }

  /** A written front over what was there before. */
  function Over(was: Bytes, front: Bytes): Bytes {
    front + if |front| < |was| then was[|front|..] else []
  }

  lemma WriteExtends(was: Bytes, front: Bytes, data: Bytes)
    ensures WriteAt(Over(was, front), |front|, data) == Over(was, front + data)
  {
  }

  lemma {:induction false} CatGrows(chunks: seq<Bytes>, i: nat)
    requires i < |chunks|
    ensures Cat(chunks[..i + 1]) == Cat(chunks[..i]) + chunks[i]
    ensures Cat(chunks[..i + 1]) <= Cat(chunks)
    decreases |chunks| - i
  {
    assert chunks[..i + 1][..i] == chunks[..i];
    if i + 1 == |chunks| {
      assert chunks[..i + 1] == chunks;
    } else {
      CatGrows(chunks, i + 1);
    }
  }

  /** All bytes have been sent with the first `k` chunks. */
  predicate Complete(chunks: seq<Bytes>, k: nat)
    requires k <= |chunks|
  {
    0 < k && |Cat(chunks[..k])| == |Cat(chunks)|
  }

  /** A leftover the upload covers. */
  predicate Harmless(stale: Bytes, total: nat) {
    |stale| < total || stale == []
  }

  /** Before the last byte is sent the destination is as it was and the temporary file has what was sent so far. */
  lemma {:induction false} Gathering(x: Pair, p: Path, chunks: seq<Bytes>, k: nat)
    requires InBase(p) && k <= |chunks| && !Complete(chunks, k)
    requires Harmless(Stale(x), |Cat(chunks)|)
    ensures var now := Stage(x, p, chunks, k);
            now.dest == x.dest && Stale(now) == Over(Stale(x), Cat(chunks[..k])) && (k > 0 ==> now.tmp.Some?)
  {
    hide WriteAt;
    if k > 0 {
      CatGrows(chunks, k - 1);
      Gathering(x, p, chunks, k - 1);
      WriteExtends(Stale(x), Cat(chunks[..k - 1]), chunks[k - 1]);
    }
  }

  /** With the last byte the destination becomes the whole file, and stays it. */
  lemma {:induction false} Publishing(x: Pair, p: Path, chunks: seq<Bytes>, k: nat)
    requires InBase(p) && k <= |chunks| && Complete(chunks, k)
    requires Harmless(Stale(x), |Cat(chunks)|)
    ensures var now := Stage(x, p, chunks, k);
            now.dest == Some(Cat(chunks)) && Stale(now) == []
            && (now.tmp.None? <==> !Complete(chunks, k - 1) || Cat(chunks) == [])
  {
    hide WriteAt, InBase;
    var all, stale := Cat(chunks), Stale(x);
    CatGrows(chunks, k - 1);
    assert Cat(chunks[..k]) == all;
    var was := Stage(x, p, chunks, k - 1);
    if Complete(chunks, k - 1) {
      Publishing(x, p, chunks, k - 1);
      assert chunks[k - 1] == [];
      NothingWritten(Stale(was), |Cat(chunks[..k - 1])|);
    } else {
      Gathering(x, p, chunks, k - 1);
      WriteExtends(stale, Cat(chunks[..k - 1]), chunks[k - 1]);
      assert Over(stale, all) == all;
    }
  }

  lemma NothingWritten(c: Bytes, offset: nat)
    ensures WriteAt(c, offset, []) == c
  {
  }

  /** Each chunk but the completing one leaves the temporary file in place, and that one renames it. */
  ghost predicate OnTime(x: Pair, p: Path, chunks: seq<Bytes>) {
    forall k: nat :: 0 < k <= |chunks| ==> RenamesAt(x, p, chunks, k) == Completing(chunks, k)
  }

  predicate RenamesAt(x: Pair, p: Path, chunks: seq<Bytes>, k: nat)
    requires 0 < k <= |chunks|
  {
    Stage(x, p, chunks, k).tmp.None?
  }

  predicate Completing(chunks: seq<Bytes>, k: nat)
    requires 0 < k <= |chunks|
  {
    Complete(chunks, k) && (!Complete(chunks, k - 1) || Cat(chunks) == [])
  }

  lemma HarmlessIsOnTime(x: Pair, p: Path, chunks: seq<Bytes>)
    requires InBase(p) && Harmless(Stale(x), |Cat(chunks)|)
    ensures OnTime(x, p, chunks)
  {
    forall k: nat | 0 < k <= |chunks|
      ensures RenamesAt(x, p, chunks, k) == Completing(chunks, k)
    {
      if Complete(chunks, k) {
        Publishing(x, p, chunks, k);
      } else {
        Gathering(x, p, chunks, k);
      }
    }
  }

  /** A longer leftover never shrinks to the right size. */
  lemma {:induction false} NeverRenamed(x: Pair, p: Path, chunks: seq<Bytes>, k: nat)
    requires InBase(p) && k <= |chunks| && |Stale(x)| > |Cat(chunks)|
    ensures var now := Stage(x, p, chunks, k);
            now.dest == x.dest && now.tmp.Some? && now.tmp.value == Over(Stale(x), Cat(chunks[..k]))
  {
    hide WriteAt, InBase;
    if k > 0 {
      CatGrows(chunks, k - 1);
      NeverRenamed(x, p, chunks, k - 1);
      WriteExtends(Stale(x), Cat(chunks[..k - 1]), chunks[k - 1]);
    } else {
      assert Over(Stale(x), []) == Stale(x);
    }
  }

  /** A leftover of the very size is published with the first chunk over it. */
  lemma PublishedAtOnce(x: Pair, p: Path, chunks: seq<Bytes>)
    requires InBase(p) && chunks != [] && |Stale(x)| == |Cat(chunks)|
    ensures Stage(x, p, chunks, 1) == Pair(Some(Over(Stale(x), chunks[0])), None)
  {
    hide WriteAt, InBase;
    CatGrows(chunks, 0);
    assert chunks[..0] == [];
    assert Stage(x, p, chunks, 1) == Stepped(Stage(x, p, chunks, 0), Chunk(p, chunks, 0));
    WriteExtends(Stale(x), [], chunks[0]);
    assert Over(Stale(x), []) == Stale(x) && [] + chunks[0] == chunks[0];
  }

  lemma {:induction false} SettledAfter(x: Pair, p: Path, chunks: seq<Bytes>, k: nat)
    requires InBase(p) && 0 < k <= |chunks| && Complete(chunks, 1) && Cat(chunks) != []
    requires Stage(x, p, chunks, 1) == Pair(Some(Cat(chunks)), None)
    ensures var now := Stage(x, p, chunks, k);
            now.dest == Some(Cat(chunks)) && Stale(now) == [] && (now.tmp.None? <==> k == 1)
  {
    hide WriteAt, InBase;
    if k > 1 {
      SettledAfter(x, p, chunks, k - 1);
      CatGrows(chunks, k - 1);
      CatLongest(chunks, 1, k - 1);
      assert chunks[k - 1] == [];
      NothingWritten([], |Cat(chunks[..k - 1])|);
    }
  }

  lemma {:induction false} CatLongest(chunks: seq<Bytes>, i: nat, j: nat)
    requires 0 < i <= j <= |chunks|
    ensures |Cat(chunks[..i])| <= |Cat(chunks[..j])| <= |Cat(chunks)|
    decreases j
  {
    CatGrows(chunks, j - 1);
    if i < j {
      CatLongest(chunks, i, j - 1);
    }
  }

  lemma CompleteAtOnce(chunks: seq<Bytes>, k: nat)
    requires 0 < k <= |chunks| && Complete(chunks, 1) && Cat(chunks) != []
    ensures Completing(chunks, k) <==> k == 1
  {
    CatLongest(chunks, 1, k);
    if k > 1 {
      CatLongest(chunks, 1, k - 1);
    }
  }

  lemma CoveredIsOnTime(x: Pair, p: Path, chunks: seq<Bytes>)
    requires InBase(p) && chunks != [] && |Stale(x)| == |Cat(chunks)| == |chunks[0]| > 0
    ensures OnTime(x, p, chunks)
  {
    hide InBase, Stage;
    CatGrows(chunks, 0);
    assert chunks[..0] == [] && Cat(chunks[..1]) == chunks[0];
    PublishedAtOnce(x, p, chunks);
    assert Over(Stale(x), chunks[0]) == chunks[0] == Cat(chunks);
    forall k: nat | 0 < k <= |chunks|
      ensures RenamesAt(x, p, chunks, k) == Completing(chunks, k)
    {
      SettledAfter(x, p, chunks, k);
      CompleteAtOnce(chunks, k);
    }
  }

  /** The upload is published by the chunk that completes it, and no other, just when no leftover is in the way: it is
      shorter than the file, or as long and all covered by the first chunk. */
  lemma OnTimeExactly(x: Pair, p: Path, chunks: seq<Bytes>)
    requires InBase(p) && chunks != []
    ensures OnTime(x, p, chunks) <==>
      Harmless(Stale(x), |Cat(chunks)|) || |Stale(x)| == |Cat(chunks)| == |chunks[0]|
  {
    hide InBase, Stage;
    var total, stale := |Cat(chunks)|, |Stale(x)|;
    CatGrows(chunks, 0);
    assert chunks[..0] == [] && Cat(chunks[..1]) == chunks[0];
    assert chunks[..|chunks|] == chunks;
    if Harmless(Stale(x), total) {
      HarmlessIsOnTime(x, p, chunks);
    } else if stale > total {
      FirstComplete(chunks, |chunks|);
      var k :| 0 < k <= |chunks| && Completing(chunks, k);
      NeverRenamed(x, p, chunks, k);
      assert !RenamesAt(x, p, chunks, k);
    } else if |chunks[0]| == total {
      CoveredIsOnTime(x, p, chunks);
    } else {
      PublishedAtOnce(x, p, chunks);
      assert RenamesAt(x, p, chunks, 1) && !Completing(chunks, 1);
    }
  }

  lemma {:induction false} FirstComplete(chunks: seq<Bytes>, k: nat)
    requires 0 < k <= |chunks| && Complete(chunks, k)
    ensures exists i: nat :: 0 < i <= |chunks| && Completing(chunks, i)
  {
    if Complete(chunks, k - 1) {
      FirstComplete(chunks, k - 1);
    } else {
      assert Completing(chunks, k);
    }
  }

  /** Publishing is atomic: whatever other files are uploaded in between, after the first `k` chunks the destination
      holds the whole file if they are all of it, and otherwise what it held before. */
  lemma AtomicPublish(files: Files, steps: seq<Request>, p: Path, chunks: seq<Bytes>, k: nat)
    requires InBase(p) && Temp(p) != p && k <= |chunks|
    requires forall i :: 0 <= i < |steps| ==> steps[i].path == p || Apart(steps[i].path, p)
    requires |Own(steps, p)| == k && forall i :: 0 <= i < k ==> Own(steps, p)[i] == Chunk(p, chunks, i)
    requires Harmless(Held(files, Temp(p)), |Cat(chunks)|)
    ensures Look(After(files, steps), p) == if Complete(chunks, k) then Some(Cat(chunks)) else Look(files, p)
  {
    hide InBase, Apart, Stage, After, Own;
    OthersPassBy(files, steps, p);
    StageIsSteps(Seen(files, p), p, chunks, Own(steps, p));
    if Complete(chunks, k) {
      Publishing(Seen(files, p), p, chunks, k);
    } else {
      Gathering(Seen(files, p), p, chunks, k);
    }
  }

  lemma InPlaceStep(files: Files, r: Request, p: Path)
    requires InBase(p) && Temp(p) == p && (r.path == p || Apart(r.path, p))
    ensures r.path != p ==> Look(Copied(files, r), p) == Look(files, p)
    ensures r.path == p && r.offset >= 0 ==>
      Look(Copied(files, r), p) == Some(WriteAt(Held(files, p), r.offset, r.data))
  {
    hide WriteAt, InBase;
  }

  lemma OverNothing(was: Bytes)
    ensures Over(was, []) == was
  {
  }

  /** A file that is its own temporary file is never published: each chunk is written over what it held, for all to
      see. */
  lemma {:induction false} WrittenInPlace(files: Files, steps: seq<Request>, p: Path, chunks: seq<Bytes>, k: nat)
    requires InBase(p) && Temp(p) == p && k <= |chunks|
    requires forall i :: 0 <= i < |steps| ==> steps[i].path == p || Apart(steps[i].path, p)
    requires |Own(steps, p)| == k && forall i :: 0 <= i < k ==> Own(steps, p)[i] == Chunk(p, chunks, i)
    ensures Look(After(files, steps), p) ==
      if k == 0 then Look(files, p) else Some(Over(Held(files, p), Cat(chunks[..k])))
    decreases |steps|
  {
    hide WriteAt, InBase, Copied, Apart, Temp, Over;
    if steps != [] {
      var n := |steps| - 1;
      InPlaceStep(After(files, steps[..n]), steps[n], p);
      var before, own := After(files, steps[..n]), Own(steps[..n], p);
      if steps[n].path == p {
        assert Own(steps, p) == own + [steps[n]] && steps[n] == Chunk(p, chunks, k - 1);
        WrittenInPlace(files, steps[..n], p, chunks, k - 1);
        OverNothing(Held(files, p));
        CatGrows(chunks, k - 1);
        WriteExtends(Held(files, p), Cat(chunks[..k - 1]), chunks[k - 1]);
      } else {
        assert Own(steps, p) == own;
        WrittenInPlace(files, steps[..n], p, chunks, k);
      }
    }
  }

  /** Two files that gather in one temporary file: the upload of one takes along what the other has sent so far, whose
      destination is then published with a zero in its place. */
  lemma UploadsMixed(files: Files, p: Path, q: Path, x: byte, y: byte, z: byte)
    requires InBase(p) && InBase(q) && p != q && Temp(p) == Temp(q) && Temp(p) !in files && Temp(p) !in {p, q}
    ensures var chunks := [[x], [y]];
            var steps := [Chunk(p, chunks, 0), Chunk(q, [[z]], 0), Chunk(p, chunks, 1)];
            After(files, steps) == files[q := [z]][p := [0, y]]
  {
    hide InBase;
    var chunks := [[x], [y]];
    var steps := [Chunk(p, chunks, 0), Chunk(q, [[z]], 0), Chunk(p, chunks, 1)];
    var t := Temp(p);
    CatGrows(chunks, 0);
    CatGrows(chunks, 1);
    CatGrows([[z]], 0);
    assert chunks[..0] == [] && chunks[..2] == chunks && [[z]][..0] == [] && [[z]][..1] == [[z]];
    assert Chunk(p, chunks, 0) == Request(p, 0, [x], 2) && Chunk(p, chunks, 1) == Request(p, 1, [y], 2);
    assert WriteAt([], 0, [x]) == [x] && WriteAt([x], 0, [z]) == [z] && WriteAt([], 1, [y]) == [0, y];
    assert steps[..2][..1] == steps[..1] && steps[..1][..0] == [];
    assert After(files, steps[..1]) == files[t := [x]];
    assert After(files, steps[..2]) == files[q := [z]];
    assert After(files, steps) == Copied(files[q := [z]], steps[2]);
  }

  lemma {:induction false} StageIsSteps(x: Pair, p: Path, chunks: seq<Bytes>, reqs: seq<Request>)
    requires |reqs| <= |chunks| && forall i :: 0 <= i < |reqs| ==> reqs[i] == Chunk(p, chunks, i)
    ensures AllStepped(x, reqs) == Stage(x, p, chunks, |reqs|)
  {
    hide Stepped;
    if reqs != [] {
      StageIsSteps(x, p, chunks, reqs[..|reqs| - 1]);
    }
  }

  /** The files of the guest, changed in place. */
  class FileStore {
    var files: Files

    method CopyFile(r: Request) returns (fault: Option<Fault>)
      modifies this
      ensures fault == RequestFault(r)
      ensures files == Copied(old(files), r)
    {
      if !InBase(r.path) {
        return Some(OutsideBase);
      }
      var t := Temp(r.path);
      if t !in files {
        files := files[t := []];
      }
      if r.data != [] {
        if r.offset < 0 {
          return Some(BadOffset);
        }
        files := files[t := WriteAt(files[t], r.offset, r.data)];
      }
      if |files[t]| == r.size && t != r.path {
        var whole := files[t];
        files := files - {t};
        files := files[r.path := whole];
      }
      fault := None;
    }
  }
}
