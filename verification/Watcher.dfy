/** Source trees, and the order in which a scan meets their entries. */
module SourceTrees {
  import opened Wrappers

  type Path = seq<string>

  /** What the mount holds at a path; `dangling` links point at nothing. */
  datatype Node =
    | File(data: string, mtime: int)
    | Link(dest: string, mtime: int, dangling: bool)
    | Dir(mtime: int, kids: Kids)
  {
    predicate Leaf() {
      !Dir?
    }

    /** `metadata.len()` of a leaf. */
    function Size(): nat {
      if File? then |data| else if Link? then |dest| else 0
    }
  }

  /** Directory entries in the order `read_dir` yields them. */
  datatype Kids = NoKids | Kid(name: string, node: Node, rest: Kids)

  datatype Item = Item(path: Path, node: Node)

  function Names(ks: Kids): set<string> {
    match ks
    case NoKids => {}
    case Kid(n, _, rest) => {n} + Names(rest)
  }

  /** A directory names each entry once. */
  predicate WellFormed(n: Node) {
    n.Dir? ==> WellFormedKids(n.kids)
  }

  predicate WellFormedKids(ks: Kids) {
    ks.Kid? ==> ks.name !in Names(ks.rest) && WellFormed(ks.node) && WellFormedKids(ks.rest)
  }

  /** All entries, a directory before what it holds. */
  function Preorder(path: Path, n: Node): seq<Item>
    decreases n, 1
  {
    [Item(path, n)] + if n.Dir? then PreorderKids(path, n.kids) else []
  }

  function PreorderKids(path: Path, ks: Kids): seq<Item>
    decreases ks, 0
  {
    match ks
    case NoKids => []
    case Kid(name, n, rest) => Preorder(path + [name], n) + PreorderKids(path, rest)
  }

  /** `a` is `b` or lies above it. */
  predicate Above(a: Path, b: Path) {
    a <= b
  }

  ghost predicate AllBelow(path: Path, items: seq<Item>) {
    forall i :: 0 <= i < |items| ==> path <= items[i].path
  }

  ghost predicate NoRepeats(items: seq<Item>) {
    forall i, j :: 0 <= i < j < |items| ==> items[i].path != items[j].path
  }

  /** Every entry below the top one comes after the directory that holds it. */
  ghost predicate ParentsFirst(path: Path, items: seq<Item>, i: nat)
    requires i < |items|
  {
    var p := items[i].path;
    p == path || (p != [] && exists j :: 0 <= j < i && items[j].node.Dir? && items[j].path == p[..|p| - 1])
  }

  lemma {:induction false} PreorderBelow(path: Path, n: Node)
    ensures AllBelow(path, Preorder(path, n))
    decreases n, 1
  {
    if n.Dir? {
      PreorderKidsBelow(path, n.kids);
    }
  }

  /** Entries of a directory start with the directory's path and one of its names. */
  ghost predicate UnderNames(path: Path, names: set<string>, items: seq<Item>) {
    forall i :: 0 <= i < |items| ==> path < items[i].path && items[i].path[|path|] in names
  }

  lemma {:induction false} PreorderKidsBelow(path: Path, ks: Kids)
    ensures UnderNames(path, Names(ks), PreorderKids(path, ks)) && AllBelow(path, PreorderKids(path, ks))
    decreases ks, 0
  {
    if ks.Kid? {
      PreorderBelow(path + [ks.name], ks.node);
      PreorderKidsBelow(path, ks.rest);
    }
  }

  lemma {:induction false} PreorderNoRepeats(path: Path, n: Node)
    requires WellFormed(n)
    ensures NoRepeats(Preorder(path, n))
    decreases n, 1
  {
    if n.Dir? {
      PreorderKidsNoRepeats(path, n.kids);
      PreorderKidsBelow(path, n.kids);
    }
  }

  lemma {:induction false} PreorderKidsNoRepeats(path: Path, ks: Kids)
    requires WellFormedKids(ks)
    ensures NoRepeats(PreorderKids(path, ks))
    decreases ks, 0
  {
    if ks.Kid? {
      var a, b := Preorder(path + [ks.name], ks.node), PreorderKids(path, ks.rest);
      PreorderNoRepeats(path + [ks.name], ks.node);
      PreorderBelow(path + [ks.name], ks.node);
      PreorderKidsNoRepeats(path, ks.rest);
      PreorderKidsBelow(path, ks.rest);
      forall i, j | 0 <= i < |a| && 0 <= j < |b|
        ensures a[i].path != b[j].path
      {
        assert a[i].path[|path|] == ks.name;
      }
    }
  }

  lemma {:induction false} PreorderParentsFirst(path: Path, n: Node)
    ensures forall i :: 0 <= i < |Preorder(path, n)| ==> ParentsFirst(path, Preorder(path, n), i)
    decreases n, 1
  {
    if n.Dir? {
      var items, below := Preorder(path, n), PreorderKids(path, n.kids);
      PreorderKidsParentsFirst(path, n.kids);
      forall i | 0 < i < |items|
        ensures ParentsFirst(path, items, i)
      {
        assert items[i] == below[i - 1] && KidParent(path, below, i - 1);
        if |items[i].path| == |path| + 1 {
          assert items[0].path == items[i].path[..|items[i].path| - 1];
        } else {
          var j :| 0 <= j < i - 1 && below[j].node.Dir? &&
              below[j].path == below[i - 1].path[..|below[i - 1].path| - 1];
          assert items[j + 1] == below[j];
        }
      }
    }
  }

  /** The same below a directory: direct entries have the directory itself as parent. */
  ghost predicate KidParent(path: Path, items: seq<Item>, i: nat)
    requires i < |items|
  {
    && path < items[i].path
    && (|items[i].path| == |path| + 1 ||
        exists j :: 0 <= j < i && items[j].node.Dir? && items[j].path == items[i].path[..|items[i].path| - 1])
  }

  lemma {:induction false} PreorderKidsParentsFirst(path: Path, ks: Kids)
    ensures forall i :: 0 <= i < |PreorderKids(path, ks)| ==> KidParent(path, PreorderKids(path, ks), i)
    decreases ks, 0
  {
    if ks.Kid? {
      var kid := path + [ks.name];
      var a, b := Preorder(kid, ks.node), PreorderKids(path, ks.rest);
      PreorderParentsFirst(kid, ks.node);
      PreorderBelow(kid, ks.node);
      PreorderKidsParentsFirst(path, ks.rest);
      forall i | 0 <= i < |a + b|
        ensures KidParent(path, a + b, i)
      {
        if i < |a| {
          assert (a + b)[i] == a[i] && ParentsFirst(kid, a, i);
          if a[i].path != kid {
            var j :| 0 <= j < i && a[j].node.Dir? && a[j].path == a[i].path[..|a[i].path| - 1];
            assert (a + b)[j] == a[j];
          }
        } else {
          var k := i - |a|;
          assert (a + b)[i] == b[k] && KidParent(path, b, k);
          if |b[k].path| != |path| + 1 {
            var j :| 0 <= j < k && b[j].node.Dir? && b[j].path == b[k].path[..|b[k].path| - 1];
            assert (a + b)[|a| + j] == b[j];
          }
        }
      }
    }
  }

  /** What is found by going down the names of a path. */
  function Find(n: Node, p: Path): Option<Node>
    decreases n, 1
  {
    if p == [] then Some(n) else if n.Dir? then FindKid(n.kids, p) else None
  }

  function FindKid(ks: Kids, p: Path): Option<Node>
    requires p != []
    decreases ks, 0
  {
    match ks
    case NoKids => None
    case Kid(name, n, rest) => if name == p[0] then Find(n, p[1..]) else FindKid(rest, p)
  }

  lemma {:induction false} NotNamed(ks: Kids, p: Path)
    requires p != [] && p[0] !in Names(ks)
    ensures FindKid(ks, p).None?
    decreases ks
  {
    if ks.Kid? {
      NotNamed(ks.rest, p);
    }
  }

  /** A scan meets an entry at a path just when it is found there. */
  lemma {:induction false} MetIsFound(path: Path, n: Node, p: Path, x: Node)
    requires WellFormed(n)
    ensures Item(path + p, x) in Preorder(path, n) <==> Find(n, p) == Some(x)
    decreases n, 1
  {
    if n.Dir? {
      PreorderKidsBelow(path, n.kids);
      if p == [] {
        assert path + p == path;
      } else {
        assert Item(path + p, x) != Item(path, n);
        MetIsFoundKid(path, n.kids, p, x);
      }
    } else {
      assert path + p == path <==> p == [];
    }
  }

  lemma {:induction false} MetIsFoundKid(path: Path, ks: Kids, p: Path, x: Node)
    requires WellFormedKids(ks) && p != []
    ensures Item(path + p, x) in PreorderKids(path, ks) <==> FindKid(ks, p) == Some(x)
    decreases ks, 0
  {
    if ks.Kid? {
      var it, kid := Item(path + p, x), path + [ks.name];
      MetIsFoundKid(path, ks.rest, p, x);
      PreorderBelow(kid, ks.node);
      if p[0] == ks.name {
        NotNamed(ks.rest, p);
        assert path + p == kid + p[1..];
        MetIsFound(kid, ks.node, p[1..], x);
      } else {
        assert !(kid <= path + p) by {
          assert kid[|path|] != (path + p)[|path|];
        }
        assert it !in Preorder(kid, ks.node);
      }
    }
  }
}

/** One pass over a source tree: what gets recorded, what is due for copying, and the limits. */
module ScanAccounts {
  import opened SourceTrees

  const MAX_ENTRIES := 16
  const MAX_SIZE := 1024 * 1024

  type Watched = map<Path, int>

  /** New entries are due, and leaves that got newer. */
  predicate Due(w: Watched, it: Item) {
    it.path !in w || (it.node.Leaf() && it.node.mtime > w[it.path])
  }

  /** The modification times on record after meeting `items` in order. */
  function Recorded(w: Watched, items: seq<Item>): Watched {
    if items == [] then w
    else
      var last := items[|items| - 1];
      Recorded(w, items[..|items| - 1])[last.path := last.node.mtime]
  }

  /** The paths handed over for copying, each judged against what was on record when it was met. */
  function Updates(w: Watched, items: seq<Item>): seq<Path> {
    if items == [] then []
    else
      var n := |items| - 1;
      Updates(w, items[..n]) + if Due(Recorded(w, items[..n]), items[n]) then [items[n].path] else []
  }

  /** The entry limit, which only leaves are held to. */
  predicate Within(w: Watched, items: seq<Item>) {
    items == [] ||
    var n := |items| - 1;
    Within(w, items[..n]) && (items[n].node.Leaf() ==> |Recorded(w, items)| <= MAX_ENTRIES)
  }

  function Total(items: seq<Item>): nat {
    if items == [] then 0 else Total(items[..|items| - 1]) + items[|items| - 1].node.Size()
  }

  lemma {:induction false} RecordedComposes(w: Watched, a: seq<Item>, b: seq<Item>)
    ensures Recorded(w, a + b) == Recorded(Recorded(w, a), b)
  {
    if b == [] {
      assert a + b == a;
    } else {
      RecordedComposes(w, a, b[..|b| - 1]);
      assert (a + b)[..|a + b| - 1] == a + b[..|b| - 1];
    }
  }

  lemma {:induction false} UpdatesCompose(w: Watched, a: seq<Item>, b: seq<Item>)
    ensures Updates(w, a + b) == Updates(w, a) + Updates(Recorded(w, a), b)
  {
    if b == [] {
      assert a + b == a;
    } else {
      UpdatesCompose(w, a, b[..|b| - 1]);
      RecordedComposes(w, a, b[..|b| - 1]);
      assert (a + b)[..|a + b| - 1] == a + b[..|b| - 1];
    }
  }

  lemma {:induction false} LimitsCompose(w: Watched, a: seq<Item>, b: seq<Item>)
    ensures Within(w, a + b) == (Within(w, a) && Within(Recorded(w, a), b))
  {
    if b == [] {
      assert a + b == a;
    } else {
      LimitsCompose(w, a, b[..|b| - 1]);
      RecordedComposes(w, a, b);
      assert (a + b)[..|a + b| - 1] == a + b[..|b| - 1];
    }
  }

  lemma {:induction false} TotalsAdd(a: seq<Item>, b: seq<Item>)
    ensures Total(a + b) == Total(a) + Total(b)
  {
    if b == [] {
      assert a + b == a;
    } else {
      TotalsAdd(a, b[..|b| - 1]);
      assert (a + b)[..|a + b| - 1] == a + b[..|b| - 1];
    }
  }

  lemma PassesCompose(w: Watched, a: seq<Item>, b: seq<Item>)
    ensures Recorded(w, a + b) == Recorded(Recorded(w, a), b)
    ensures Updates(w, a + b) == Updates(w, a) + Updates(Recorded(w, a), b)
    ensures Within(w, a + b) == (Within(w, a) && Within(Recorded(w, a), b))
    ensures Total(a + b) == Total(a) + Total(b)
  {
    RecordedComposes(w, a, b);
    UpdatesCompose(w, a, b);
    LimitsCompose(w, a, b);
    TotalsAdd(a, b);
  }

  /** The bytes of all files below an entry, and the lengths of all link destinations. */
  function Weight(n: Node): nat
    decreases n, 1
  {
    match n
    case File(data, _) => |data|
    case Link(dest, _, _) => |dest|
    case Dir(_, kids) => WeightKids(kids)
  }

  function WeightKids(ks: Kids): nat
    decreases ks, 0
  {
    if ks.NoKids? then 0 else Weight(ks.node) + WeightKids(ks.rest)
  }

  lemma {:induction false} TotalIsWeight(path: Path, n: Node)
    ensures Total(Preorder(path, n)) == Weight(n)
    decreases n, 1
  {
    var here := [Item(path, n)];
    assert here[..0] == [];
    if n.Dir? {
      TotalIsWeightKids(path, n.kids);
      TotalsAdd(here, PreorderKids(path, n.kids));
    }
  }

  lemma {:induction false} TotalIsWeightKids(path: Path, ks: Kids)
    ensures Total(PreorderKids(path, ks)) == WeightKids(ks)
    decreases ks, 0
  {
    if ks.Kid? {
      TotalIsWeight(path + [ks.name], ks.node);
      TotalIsWeightKids(path, ks.rest);
      TotalsAdd(Preorder(path + [ks.name], ks.node), PreorderKids(path, ks.rest));
    }
  }

  lemma SingleStep(w: Watched, it: Item)
    ensures Recorded(w, [it]) == w[it.path := it.node.mtime]
    ensures Updates(w, [it]) == if Due(w, it) then [it.path] else []
    ensures Within(w, [it]) == (it.node.Leaf() ==> |w[it.path := it.node.mtime]| <= MAX_ENTRIES)
    ensures Total([it]) == it.node.Size()
  {
    assert [it][..0] == [];
  }

  /** A path met once is judged against what was on record before the pass. */
  lemma {:induction false} RecordedElsewhere(w: Watched, items: seq<Item>, p: Path)
    requires forall i :: 0 <= i < |items| ==> items[i].path != p
    ensures (p in Recorded(w, items)) == (p in w)
    ensures p in w ==> Recorded(w, items)[p] == w[p]
  {
    if items != [] {
      RecordedElsewhere(w, items[..|items| - 1], p);
    }
  }

  /** Exactly the due entries are handed over, a directory before what it holds. */
  lemma {:induction false} UpdatesAreTheDue(w: Watched, items: seq<Item>)
    requires NoRepeats(items)
    ensures Updates(w, items) == DuePaths(w, items)
  {
    if items != [] {
      var n := |items| - 1;
      UpdatesAreTheDue(w, items[..n]);
      RecordedElsewhere(w, items[..n], items[n].path);
    }
  }

  function DuePaths(w: Watched, items: seq<Item>): seq<Path> {
    if items == [] then []
    else
      var n := |items| - 1;
      DuePaths(w, items[..n]) + if Due(w, items[n]) then [items[n].path] else []
  }
}

/** The target tree and the system calls a scan makes on it. */
module Targets {
  import opened Wrappers
  import opened SourceTrees
  import opened ScanAccounts

  datatype Entry = TDir | TFile(data: string) | TLink(dest: string)

  type Target = map<Path, Entry>

  function Shape(n: Node): Entry {
    match n
    case File(data, _) => TFile(data)
    case Link(dest, _, _) => TLink(dest)
    case Dir(_, _) => TDir
  }

  function Prefixes(p: Path): set<Path> {
    set k | 0 <= k <= |p| :: p[..k]
  }

  /** `create_dir_all`: fails when something on the way is not a directory. */
  function MkdirAll(t: Target, p: Path): Option<Target> {
    if forall q <- Prefixes(p) :: q in t ==> t[q] == TDir then
      Some(t + map q | q in Prefixes(p) :: TDir)
    else None
  }

  /** Where in the target a path leads that is a link or lies below one, if it leads there: the rest of the file system
      decides. */
  type Leads = (Target, Path) -> Option<Path>

  predicate LinkAbove(t: Target, p: Path) {
    exists k :: 0 <= k < |p| && p[..k] in t && t[p[..k]].TLink?
  }

  /** What comes in below a link lands where the link leads. A link there is replaced by a link and by nothing else. */
  function PutElsewhere(leads: Leads, t: Target, p: Path, n: Node): Target {
    var q := leads(t, p);
    if q.None? || (q.value in t && (t[q.value] == TDir || n.Dir? || (t[q.value].TLink? && !n.Link?))) then t
    else t[q.value := Shape(n)]
  }

  /** Writing to a link writes to the file it leads to, and leaves the link. */
  function WriteThrough(leads: Leads, t: Target, p: Path, n: Node): Target {
    var q := leads(t, p);
    if q.None? || (q.value in t && !t[q.value].TFile?) then t else t[q.value := Shape(n)]
  }

  /** Copy a leaf. A link replaces any leaf; a file cannot replace a directory, and goes through a link. */
  function Copy(leads: Leads, t: Target, p: Path, n: Node): Target {
    if n.Dir? || (p in t && t[p] == TDir) then t
    else if n.File? && p in t && t[p].TLink? then WriteThrough(leads, t, p, n)
    else t[p := Shape(n)]
  }

  function UpdateTarget(leads: Leads, t: Target, p: Path, n: Node): Target {
    if LinkAbove(t, p) then PutElsewhere(leads, t, p, n)
    else if n.Dir? then
      var made := MkdirAll(t, p);
      if made.None? then t else made.value
    else if p == [] then Copy(leads, t, p, n)
    else
      var made := MkdirAll(t, p[..|p| - 1]);
      if made.None? then t else Copy(leads, made.value, p, n)
  }

  /** Remove a watched path that is gone: a directory goes with everything below it. */
  function RemoveOne(t: Target, p: Path): Target {
    if p in t && t[p] == TDir then map q | q in t && !Above(p, q) :: t[q]
    else t - {p}
  }

  function Table(items: seq<Item>): map<Path, Node> {
    if items == [] then map[]
    else
      var last := items[|items| - 1];
      Table(items[..|items| - 1])[last.path := last.node]
  }

  ghost predicate Listed(items: seq<Item>, p: Path) {
    exists i :: 0 <= i < |items| && items[i].path == p
  }

  ghost predicate Lists(items: seq<Item>, src: map<Path, Node>) {
    && (forall i :: 0 <= i < |items| ==> items[i].path in src && src[items[i].path] == items[i].node)
    && (forall p <- src :: Listed(items, p))
  }

  lemma {:induction false} TableKeys(items: seq<Item>, p: Path)
    ensures p in Table(items) <==> Listed(items, p)
  {
    if items != [] {
      var n := |items| - 1;
      TableKeys(items[..n], p);
      if Listed(items[..n], p) {
        var i :| 0 <= i < n && items[..n][i].path == p;
        assert items[i].path == p;
      }
      if Listed(items, p) && p != items[n].path {
        var i :| 0 <= i <= n && items[i].path == p;
        assert items[..n][i].path == p;
      }
    }
  }

  lemma {:induction false} TableValue(items: seq<Item>, i: nat)
    requires i < |items| && NoRepeats(items)
    ensures items[i].path in Table(items) && Table(items)[items[i].path] == items[i].node
  {
    var n := |items| - 1;
    if i < n {
      TableValue(items[..n], i);
    }
  }

  lemma TableLists(items: seq<Item>)
    requires NoRepeats(items)
    ensures Lists(items, Table(items))
  {
    forall i | 0 <= i < |items|
      ensures items[i].path in Table(items) && Table(items)[items[i].path] == items[i].node
    {
      TableValue(items, i);
    }
    forall p <- Table(items)
      ensures Listed(items, p)
    {
      TableKeys(items, p);
    }
  }

  /** The target as a copy of the source. */
  /** The same paths as in the source, a file with its bytes, a link with its destination, a directory as one. */
  ghost predicate Mirrored(src: map<Path, Node>, t: Target) {
    && t.Keys == src.Keys
    && forall p <- src ::
         match src[p]
         case File(data, _) => t[p] == TFile(data)
         case Link(dest, _, _) => t[p] == TLink(dest)
         case Dir(_, _) => t[p] == TDir
  }

  lemma ImageMirrors(src: map<Path, Node>, t: Target)
    ensures t == Image(src) <==> Mirrored(src, t)
  {
  }

  function Image(src: map<Path, Node>): Target {
    map p | p in src :: Shape(src[p])
  }

  function Stamps(src: map<Path, Node>): Watched {
    map p | p in src :: src[p].mtime
  }

  predicate Exists(src: map<Path, Node>, p: Path) {
    p in src && !(src[p].Link? && src[p].dangling)
  }

  /** Watched paths that are still there. */
  function Kept(was: map<Path, Node>, src: map<Path, Node>): set<Path> {
    set p | p in was && Exists(src, p)
  }

  function KeptStamps(was: map<Path, Node>, src: map<Path, Node>): Watched {
    map p | p in Kept(was, src) :: was[p].mtime
  }

  function KeptTarget(was: map<Path, Node>, src: map<Path, Node>): Target {
    map p | p in Kept(was, src) :: Shape(was[p])
  }

  /** A kept path the scan can follow: a directory that stayed one, a leaf that is unchanged or got newer,
      though not a link that turned into a file. */
  predicate Followed(was: Node, now: Node) {
    if was.Dir? || now.Dir? then was.Dir? && now.Dir?
    else if now.mtime > was.mtime then !(was.Link? && now.File?)
    else Shape(was) == Shape(now)
  }

  ghost predicate Faithful(was: map<Path, Node>, src: map<Path, Node>) {
    forall p <- Kept(was, src) :: Followed(was[p], src[p])
  }
}

/** When a successful scan leaves the target a copy of the source. */
module Mirrors {
  import opened Wrappers
  import opened SourceTrees
  import opened ScanAccounts
  import opened Targets

  /** Copy every due entry, in the order they were met. */
  function Applied(leads: Leads, w: Watched, t: Target, items: seq<Item>): Target {
    if items == [] then t
    else
      var n := |items| - 1;
      var before := Applied(leads, w, t, items[..n]);
      if Due(w, items[n]) then UpdateTarget(leads, before, items[n].path, items[n].node) else before
  }

  function Replay(leads: Leads, t: Target, src: map<Path, Node>, ps: seq<Path>): Target
    requires forall i :: 0 <= i < |ps| ==> ps[i] in src
  {
    if ps == [] then t
    else
      var n := |ps| - 1;
      UpdateTarget(leads, Replay(leads, t, src, ps[..n]), ps[n], src[ps[n]])
  }

  lemma {:induction false} DueAreListed(w: Watched, items: seq<Item>, src: map<Path, Node>)
    requires forall i :: 0 <= i < |items| ==> items[i].path in src
    ensures forall i :: 0 <= i < |DuePaths(w, items)| ==> DuePaths(w, items)[i] in src
  {
    if items != [] {
      DueAreListed(w, items[..|items| - 1], src);
    }
  }

  lemma {:induction false} ReplayIsApplied(leads: Leads, w: Watched, t: Target, items: seq<Item>, src: map<Path, Node>)
    requires forall i :: 0 <= i < |items| ==> items[i].path in src && src[items[i].path] == items[i].node
    ensures forall i :: 0 <= i < |DuePaths(w, items)| ==> DuePaths(w, items)[i] in src
    ensures Replay(leads, t, src, DuePaths(w, items)) == Applied(leads, w, t, items)
  {
    hide UpdateTarget, Due;
    DueAreListed(w, items, src);
    if items != [] {
      var n := |items| - 1;
      ReplayIsApplied(leads, w, t, items[..n], src);
      if Due(w, items[n]) {
        assert DuePaths(w, items)[..|DuePaths(w, items)| - 1] == DuePaths(w, items[..n]);
      } else {
        assert DuePaths(w, items) == DuePaths(w, items[..n]);
      }
    }
  }

  /** What may stand at a path where `n` is to be put. */
  predicate Replaceable(e: Entry, n: Node) {
    if n.Dir? then e == TDir else e != TDir && !(e.TLink? && n.File?)
  }

  ghost predicate DirsAbove(t: Target, p: Path) {
    forall k :: 0 <= k < |p| ==> p[..k] in t && t[p[..k]] == TDir
  }

  lemma UpdateLands(leads: Leads, t: Target, p: Path, n: Node)
    requires DirsAbove(t, p)
    requires p in t ==> Replaceable(t[p], n)
    ensures UpdateTarget(leads, t, p, n) == t[p := Shape(n)]
  {
    assert !LinkAbove(t, p);
    if n.Dir? {
      assert p[..|p|] == p;
      assert t + (map q | q in Prefixes(p) :: TDir) == t[p := TDir];
    } else if p != [] {
      var up := p[..|p| - 1];
      forall q <- Prefixes(up)
        ensures q in t && t[q] == TDir
      {
        var k :| 0 <= k <= |up| && up[..k] == q;
        assert p[..k] == q;
      }
      assert t + (map q | q in Prefixes(up) :: TDir) == t;
    }
  }

  /** A link leads the update away: there is one above the path, or a file is written to one. */
  predicate GoesThrough(t: Target, p: Path, n: Node) {
    LinkAbove(t, p) || (n.File? && p in t && t[p].TLink?)
  }

  /** An update that no link leads away changes nothing that is there elsewhere, nor what it cannot replace. */
  lemma UpdateElsewhere(leads: Leads, t: Target, p: Path, n: Node, q: Path)
    requires q in t && (q == p ==> n.Leaf() && !Replaceable(t[q], n)) && !GoesThrough(t, p, n)
    ensures q in UpdateTarget(leads, t, p, n) && UpdateTarget(leads, t, p, n)[q] == t[q]
  {
  }

  /** And leaves a link nowhere but at its own path. */
  lemma NoNewLinks(leads: Leads, t: Target, p: Path, n: Node, q: Path)
    requires !GoesThrough(t, p, n) && q in UpdateTarget(leads, t, p, n) && UpdateTarget(leads, t, p, n)[q].TLink?
    ensures (q == p && n.Link?) || (q in t && t[q] == UpdateTarget(leads, t, p, n)[q])
  {
  }

  /** A file written to a link lands where the link leads, if there is a file or nothing, and the link stays. */
  lemma WritesThrough(leads: Leads, t: Target, p: Path, data: string, mtime: int, q: Path)
    requires p in t && t[p].TLink? && DirsAbove(t, p) && leads(t, p) == Some(q) && (q !in t || t[q].TFile?)
    ensures UpdateTarget(leads, t, p, File(data, mtime)) == t[q := TFile(data)]
    ensures p != q
  {
    assert !LinkAbove(t, p);
    if p != [] {
      var up := p[..|p| - 1];
      forall a <- Prefixes(up)
        ensures a in t && t[a] == TDir
      {
        var k :| 0 <= k <= |up| && a == up[..k];
        assert a == p[..k];
      }
      assert t + (map a | a in Prefixes(up) :: TDir) == t;
    }
  }

  /** What comes in below a link lands where that leads, if it leads anywhere. A directory that is there stays, and so
      does a link in the way of anything but a link. */
  lemma LandsElsewhere(leads: Leads, t: Target, p: Path, n: Node, k: nat)
    requires k < |p| && p[..k] in t && t[p[..k]].TLink?
    ensures var r, now := leads(t, p), UpdateTarget(leads, t, p, n);
            match r
            case None => now == t
            case Some(q) =>
              if q in t && (t[q] == TDir || n.Dir? || (t[q].TLink? && !n.Link?)) then now == t
              else
                now == t[q := match n
                              case File(data, _) => TFile(data)
                              case Link(dest, _, _) => TLink(dest)
                              case Dir(_, _) => TDir]
  {
  }

  /** Wherever an update is led, a link stays a link unless something else is put at its very path. */
  lemma LinkStays(leads: Leads, t: Target, p: Path, n: Node, q: Path)
    requires q in t && t[q].TLink?
    ensures q in UpdateTarget(leads, t, p, n) && UpdateTarget(leads, t, p, n)[q].TLink?
  {
  }

  ghost predicate AncestorMet(items: seq<Item>, i: nat, k: nat)
    requires i < |items| && k < |items[i].path|
  {
    exists j :: 0 <= j < i && items[j].node.Dir? && items[j].path == items[i].path[..k]
  }

  lemma {:induction false} Ancestors(items: seq<Item>, i: nat, k: nat)
    requires i < |items| && k < |items[i].path|
    requires forall j :: 0 <= j < |items| ==> ParentsFirst([], items, j)
    ensures AncestorMet(items, i, k)
  {
    assert ParentsFirst([], items, i);
    var p := items[i].path;
    var j :| 0 <= j < i && items[j].node.Dir? && items[j].path == p[..|p| - 1];
    if k < |p| - 1 {
      Ancestors(items, j, k);
      assert items[j].path[..k] == p[..k];
    }
  }

  /** The target half-way: what has been met is as in the source, the rest as it was kept. */
  function Midway(was: map<Path, Node>, src: map<Path, Node>, met: seq<Item>): Target {
    KeptTarget(was, src) + Image(Table(met))
  }

  ghost predicate Scanned(items: seq<Item>, src: map<Path, Node>) {
    && Lists(items, src)
    && NoRepeats(items)
    && (forall j :: 0 <= j < |items| ==> ParentsFirst([], items, j))
  }

  lemma MidwayDirs(was: map<Path, Node>, src: map<Path, Node>, items: seq<Item>, i: nat)
    requires i < |items| && Scanned(items, src)
    ensures DirsAbove(Midway(was, src, items[..i]), items[i].path)
  {
    var p := items[i].path;
    forall k | 0 <= k < |p|
      ensures p[..k] in Midway(was, src, items[..i]) && Midway(was, src, items[..i])[p[..k]] == TDir
    {
      Ancestors(items, i, k);
      var j :| 0 <= j < i && items[j].node.Dir? && items[j].path == p[..k];
      assert items[..i][j] == items[j];
      TableValue(items[..i], j);
    }
  }

  lemma MidwaySelf(was: map<Path, Node>, src: map<Path, Node>, items: seq<Item>, i: nat)
    requires i < |items| && Scanned(items, src)
    ensures var p := items[i].path; var m := Midway(was, src, items[..i]);
            && (p in m <==> p in Kept(was, src))
            && (p in m ==> m[p] == Shape(was[p]))
  {
    TableKeys(items[..i], items[i].path);
  }

  lemma MidwayGrows(was: map<Path, Node>, src: map<Path, Node>, items: seq<Item>, i: nat)
    requires i < |items|
    ensures Midway(was, src, items[..i + 1]) == Midway(was, src, items[..i])[items[i].path := Shape(items[i].node)]
  {
    assert items[..i + 1][..i] == items[..i];
    assert Image(Table(items[..i + 1])) == Image(Table(items[..i]))[items[i].path := Shape(items[i].node)];
  }

  lemma FollowedStep(leads: Leads, was: map<Path, Node>, src: map<Path, Node>, items: seq<Item>, n: nat)
    requires n < |items| && Scanned(items, src) && Faithful(was, src)
    ensures var m, it := Midway(was, src, items[..n]), items[n];
            Midway(was, src, items[..n + 1]) ==
                if Due(KeptStamps(was, src), it) then UpdateTarget(leads, m, it.path, it.node) else m
  {
    hide Midway, UpdateTarget, NoRepeats, ParentsFirst, DirsAbove;
    var m, it := Midway(was, src, items[..n]), items[n];
    MidwayDirs(was, src, items, n);
    MidwaySelf(was, src, items, n);
    MidwayGrows(was, src, items, n);
    assert it.path in src && src[it.path] == it.node;
    if Due(KeptStamps(was, src), it) {
      UpdateLands(leads, m, it.path, it.node);
    } else {
      assert m[it.path := Shape(it.node)] == m;
    }
  }

  lemma {:induction false} FollowedSteps(leads: Leads, was: map<Path, Node>, src: map<Path, Node>, items: seq<Item>,
                                        i: nat)
    requires i <= |items| && Scanned(items, src) && Faithful(was, src)
    ensures Applied(leads, KeptStamps(was, src), KeptTarget(was, src), items[..i]) == Midway(was, src, items[..i])
  {
    hide UpdateTarget, Scanned, Faithful, Due;
    if i > 0 {
      FollowedSteps(leads, was, src, items, i - 1);
      FollowedStep(leads, was, src, items, i - 1);
      assert items[..i][..i - 1] == items[..i - 1];
    } else {
      assert KeptTarget(was, src) + map[] == KeptTarget(was, src);
    }
  }

  /** Some link turned into something else. */
  ghost predicate LinkChanged(was: map<Path, Node>, src: map<Path, Node>) {
    exists p <- Kept(was, src) :: was[p].Link? && !src[p].Link?
  }

  /** Every link was kept as one or is one in the source. */
  ghost predicate PlainLinks(was: map<Path, Node>, src: map<Path, Node>, t: Target) {
    forall x <- t :: t[x].TLink? ==> (x in Kept(was, src) && was[x].Link?) || (x in src && src[x].Link?)
  }

  lemma NothingThrough(was: map<Path, Node>, src: map<Path, Node>, items: seq<Item>, n: nat, t: Target)
    requires n < |items| && Scanned(items, src) && !LinkChanged(was, src) && PlainLinks(was, src, t)
    ensures !GoesThrough(t, items[n].path, items[n].node)
  {
    hide NoRepeats, ParentsFirst;
    var p := items[n].path;
    assert p in src && src[p] == items[n].node;
    forall k | 0 <= k < |p| && p[..k] in t
      ensures !t[p[..k]].TLink?
    {
      Ancestors(items, n, k);
      var j :| 0 <= j < n && items[j].node.Dir? && items[j].path == p[..k];
      assert items[j].path in src && src[items[j].path] == items[j].node;
    }
  }

  /** Without such a link no update is led away. */
  lemma {:induction false} LinksStayPlain(leads: Leads, was: map<Path, Node>, src: map<Path, Node>, items: seq<Item>,
                                          i: nat)
    requires i <= |items| && Scanned(items, src) && !LinkChanged(was, src)
    ensures PlainLinks(was, src, Applied(leads, KeptStamps(was, src), KeptTarget(was, src), items[..i]))
  {
    hide UpdateTarget, Due, ParentsFirst, LinkChanged, GoesThrough;
    if i > 0 {
      var n := i - 1;
      LinksStayPlain(leads, was, src, items, n);
      assert items[..i][..n] == items[..n];
      var it, t := items[n], Applied(leads, KeptStamps(was, src), KeptTarget(was, src), items[..n]);
      assert it.path in src && src[it.path] == it.node;
      NothingThrough(was, src, items, n, t);
      var r := UpdateTarget(leads, t, it.path, it.node);
      forall x | x in r && r[x].TLink?
        ensures (x in Kept(was, src) && was[x].Link?) || (x in src && src[x].Link?)
      {
        NoNewLinks(leads, t, it.path, it.node, x);
      }
    }
  }

  /** A kept link that became something else stays a link. */
  lemma {:induction false} LostLinkStays(leads: Leads, was: map<Path, Node>, src: map<Path, Node>, items: seq<Item>,
                                         i: nat, p: Path)
    requires i <= |items| && p in Kept(was, src) && was[p].Link?
    ensures var t := Applied(leads, KeptStamps(was, src), KeptTarget(was, src), items[..i]); p in t && t[p].TLink?
  {
    hide UpdateTarget, Due;
    if i > 0 {
      var n := i - 1;
      LostLinkStays(leads, was, src, items, n, p);
      assert items[..i][..n] == items[..n];
      LinkStays(leads, Applied(leads, KeptStamps(was, src), KeptTarget(was, src), items[..n]), items[n].path,
                items[n].node, p);
    }
  }

  /** Without such a link, a kept path the scan cannot follow stays as it was. */
  lemma {:induction false} LostStays(leads: Leads, was: map<Path, Node>, src: map<Path, Node>, items: seq<Item>,
                                     i: nat, p: Path)
    requires i <= |items| && Scanned(items, src) && !LinkChanged(was, src)
    requires p in Kept(was, src) && !Followed(was[p], src[p])
    ensures var t := Applied(leads, KeptStamps(was, src), KeptTarget(was, src), items[..i]);
            p in t && t[p] == Shape(was[p])
  {
    hide UpdateTarget, ParentsFirst, LinkChanged, GoesThrough;
    if i > 0 {
      var n := i - 1;
      LostStays(leads, was, src, items, n, p);
      assert items[..i][..n] == items[..n];
      var it, t := items[n], Applied(leads, KeptStamps(was, src), KeptTarget(was, src), items[..n]);
      assert it.path in src && src[it.path] == it.node;
      LinksStayPlain(leads, was, src, items, n);
      NothingThrough(was, src, items, n, t);
      if Due(KeptStamps(was, src), it) {
        UpdateElsewhere(leads, t, it.path, it.node, p);
      }
    }
  }

  /** The copy is exact just when every kept path could be followed. */
  lemma MirrorsExactly(leads: Leads, was: map<Path, Node>, src: map<Path, Node>, items: seq<Item>)
    requires Scanned(items, src) && Table(items) == src
    ensures Mirrored(src, Applied(leads, KeptStamps(was, src), KeptTarget(was, src), items)) <==> Faithful(was, src)
  {
    hide Applied, Scanned, Followed, Table, KeptStamps;
    assert items[..|items|] == items;
    ImageMirrors(src, Applied(leads, KeptStamps(was, src), KeptTarget(was, src), items));
    if Faithful(was, src) {
      FollowedSteps(leads, was, src, items, |items|);
      assert KeptTarget(was, src) + Image(src) == Image(src);
    } else {
      LostDiffers(leads, was, src, items);
    }
  }

  lemma LostDiffers(leads: Leads, was: map<Path, Node>, src: map<Path, Node>, items: seq<Item>)
    requires Scanned(items, src) && !Faithful(was, src)
    ensures Applied(leads, KeptStamps(was, src), KeptTarget(was, src), items) != Image(src)
  {
    hide Applied, Scanned, Followed, KeptStamps;
    assert items[..|items|] == items;
    if LinkChanged(was, src) {
      var p :| p in Kept(was, src) && was[p].Link? && !src[p].Link?;
      LostLinkStays(leads, was, src, items, |items|, p);
    } else {
      var p :| p in Kept(was, src) && !Followed(was[p], src[p]);
      LostStays(leads, was, src, items, |items|, p);
      LostShows(was[p], src[p]);
    }
  }

  lemma LostShows(was: Node, now: Node)
    requires !Followed(was, now)
    ensures Shape(was) != Shape(now)
  {
  }

  /** Scanning an unchanged source hands over its dangling links and nothing else. */
  lemma {:induction false} RescanUpdates(src: map<Path, Node>, items: seq<Item>, p: Path)
    requires forall i :: 0 <= i < |items| ==> items[i].path in src && src[items[i].path] == items[i].node
    ensures p in DuePaths(KeptStamps(src, src), items) <==> Listed(items, p) && !Exists(src, p)
  {
    if items != [] {
      var n := |items| - 1;
      RescanUpdates(src, items[..n], p);
      if Listed(items[..n], p) {
        var i :| 0 <= i < n && items[..n][i].path == p;
        assert items[i].path == p;
      }
      if Listed(items, p) && p != items[n].path {
        var i :| 0 <= i <= n && items[i].path == p;
        assert items[..n][i].path == p;
      }
    }
  }

  lemma ScannedTree(root: Node)
    requires WellFormed(root)
    ensures Scanned(Preorder([], root), Table(Preorder([], root)))
  {
    PreorderNoRepeats([], root);
    PreorderParentsFirst([], root);
    TableLists(Preorder([], root));
  }

  lemma {:induction false} RecordedIsStamps(w: Watched, items: seq<Item>)
    ensures Recorded(w, items) == w + Stamps(Table(items))
  {
    if items != [] {
      var n := |items| - 1;
      RecordedIsStamps(w, items[..n]);
      assert Stamps(Table(items)) == Stamps(Table(items[..n]))[items[n].path := items[n].node.mtime];
    }
  }

  ghost predicate LeafFits(w: Watched, items: seq<Item>, i: nat)
    requires i < |items|
  {
    items[i].node.Leaf() ==> |w.Keys + Table(items[..i + 1]).Keys| <= MAX_ENTRIES
  }

  lemma LimitStep(w: Watched, items: seq<Item>, n: nat)
    requires |items| == n + 1
    ensures Within(w, items) <==> Within(w, items[..n]) && LeafFits(w, items, n)
  {
    RecordedIsStamps(w, items);
    assert items[..n + 1] == items;
    assert Recorded(w, items).Keys == w.Keys + Table(items).Keys;
  }

  /** The entry limit counts every path on record or met so far, each time a leaf is met. */
  lemma {:induction false} LimitMeans(w: Watched, items: seq<Item>)
    ensures Within(w, items) <==> forall i: nat :: i < |items| ==> LeafFits(w, items, i)
  {
    hide Within, Table, LeafFits;
    if items == [] {
      NothingMet(w);
    } else {
      var n := |items| - 1;
      LimitStep(w, items, n);
      LimitMeans(w, items[..n]);
      forall i: nat | i < n
        ensures LeafFits(w, items[..n], i) == LeafFits(w, items, i)
      {
        LeafFitsPrefix(w, items, n, i);
      }
    }
  }

  lemma {:induction false} SmallerSet<T>(a: set<T>, b: set<T>)
    requires a <= b
    ensures |a| <= |b|
  {
    if a != {} {
      var x :| x in a;
      SmallerSet(a - {x}, b - {x});
    }
  }

  /** Only the last leaf matters: the scan is within the limit just when no more paths are on record once it is met. */
  lemma LastLeafDecides(w: Watched, items: seq<Item>, n: nat)
    requires n < |items| && items[n].node.Leaf() && forall i :: n < i < |items| ==> !items[i].node.Leaf()
    ensures Within(w, items) <==> |w.Keys + Table(items[..n + 1]).Keys| <= MAX_ENTRIES
  {
    hide Within, Table;
    LimitMeans(w, items);
    forall i: nat | i <= n
      ensures LeafFits(w, items, n) ==> LeafFits(w, items, i)
    {
      MetGrows(items, i, n);
      SmallerSet(w.Keys + Table(items[..i + 1]).Keys, w.Keys + Table(items[..n + 1]).Keys);
    }
    assert LeafFits(w, items, n) <==> |w.Keys + Table(items[..n + 1]).Keys| <= MAX_ENTRIES;
  }

  lemma MetGrows(items: seq<Item>, i: nat, n: nat)
    requires i <= n < |items|
    ensures Table(items[..i + 1]).Keys <= Table(items[..n + 1]).Keys
  {
    hide Table;
    var few, more := Table(items[..i + 1]), Table(items[..n + 1]);
    forall p | p in few
      ensures p in more
    {
      TableKeys(items[..i + 1], p);
      TableKeys(items[..n + 1], p);
      var j :| 0 <= j < i + 1 && items[..i + 1][j].path == p;
      assert items[..n + 1][j].path == p;
    }
  }

  lemma LeafFitsPrefix(w: Watched, items: seq<Item>, n: nat, i: nat)
    requires i < n <= |items|
    ensures LeafFits(w, items[..n], i) == LeafFits(w, items, i)
  {
    assert items[..n][..i + 1] == items[..i + 1];
  }

  lemma NothingMet(w: Watched)
    ensures Within(w, [])
  {
  }

  /** Nothing that is still there lies below a path that is gone. */
  lemma BelowGone(items: seq<Item>, src: map<Path, Node>, p: Path, q: Path)
    requires Scanned(items, src) && Above(p, q) && !Exists(src, p)
    ensures !Exists(src, q)
  {
    if q in src && p != q {
      assert Listed(items, q);
      var i :| 0 <= i < |items| && items[i].path == q;
      assert q[..|p|] == p;
      Ancestors(items, i, |p|);
    }
  }

  /** The target between two removals: nothing but what was there, nothing kept is missing, nothing removed is back. */
  ghost predicate Thinning(t: Target, was: map<Path, Node>, src: map<Path, Node>, left: set<Path>) {
    && (forall p <- t :: p in was && t[p] == Shape(was[p]) && (Exists(src, p) || p in left))
    && (forall p <- Kept(was, src) :: p in t)
  }

  lemma RemovalThins(t: Target, was: map<Path, Node>, src: map<Path, Node>, items: seq<Item>, left: set<Path>, p: Path)
    requires Scanned(items, src) && Thinning(t, was, src, left) && p in left && !Exists(src, p)
    ensures Thinning(RemoveOne(t, p), was, src, left - {p})
  {
    forall q <- Kept(was, src)
      ensures q in RemoveOne(t, p)
    {
      if Above(p, q) {
        BelowGone(items, src, p, q);
      }
    }
  }

  /** What is left once every path of `gone` is removed. */
  ghost function Pruned(t: Target, gone: set<Path>): Target {
    map q | q in t && !Removed(t, gone, q) :: t[q]
  }

  ghost function Gone(was: map<Path, Node>, src: map<Path, Node>): set<Path> {
    set p | p in was && !Exists(src, p)
  }

  ghost predicate Removed(t: Target, gone: set<Path>, q: Path) {
    q in gone || exists p <- gone :: p in t && t[p] == TDir && Above(p, q)
  }

  /** The order of removal makes no difference. */
  lemma PruneOne(t: Target, gone: set<Path>, p: Path)
    ensures RemoveOne(Pruned(t, gone), p) == Pruned(t, gone + {p})
  {
    var one, all := RemoveOne(Pruned(t, gone), p), Pruned(t, gone + {p});
    forall q
      ensures q in one <==> q in all
    {
      PruneAt(t, gone, p, q);
    }
  }

  lemma PruneAt(t: Target, gone: set<Path>, p: Path, q: Path)
    ensures q in RemoveOne(Pruned(t, gone), p) <==> q in Pruned(t, gone + {p})
  {
    if q in t && !Removed(t, gone, q) && Removed(t, gone + {p}, q) && q != p {
      assert p in t && t[p] == TDir && Above(p, q);
    }
  }

  lemma Thinned(t: Target, was: map<Path, Node>, src: map<Path, Node>)
    requires Thinning(t, was, src, {})
    ensures t == KeptTarget(was, src)
  {
  }
}

/** A watched mount: what has been recorded of the source, and the copy kept of it. */
module Watchers {
  import opened Wrappers
  import opened SourceTrees
  import opened ScanAccounts
  import opened Targets
  import opened Mirrors

  datatype WatchError = TooManyFiles(count: nat) | TooLarge(size: nat)

  /** Where a watched path is copied to. */
  function MakeTargetPath(source: Path, target: Path, path: Path): Option<Path> {
    if source <= path then Some(target + path[|source|..]) else None
  }

  /** The mapping is defined on the source mount alone, covers the target mount, and keeps what lies above what. */
  lemma TargetPathsMatch(source: Path, target: Path, p: Path, q: Path)
    ensures MakeTargetPath(source, target, p).Some? <==> source <= p
    ensures target <= q ==> MakeTargetPath(source, target, source + q[|target|..]) == Some(q)
    ensures source <= p && source <= q ==>
      (MakeTargetPath(source, target, p).value <= MakeTargetPath(source, target, q).value <==> p <= q)
  {
    if target <= q {
      assert (source + q[|target|..])[|source|..] == q[|target|..];
      assert target + q[|target|..] == q;
    }
    if source <= p && source <= q {
      SharedPrefix(source, p[|source|..], q[|source|..]);
      SharedPrefix(target, p[|source|..], q[|source|..]);
      assert p == source + p[|source|..] && q == source + q[|source|..];
    }
  }

  /** A pass over `items` gives up just after the `k`th: at a leaf that is one too many, or at the end of a file or
      directory that is too large. */
  ghost predicate Stopped(w: Watched, items: seq<Item>, k: nat, e: WatchError) {
    && 0 < k <= |items|
    && match e {
         case TooManyFiles(count) =>
           && items[k - 1].node.Leaf()
           && Within(w, items[..k - 1])
           && MAX_ENTRIES < |Recorded(w, items[..k])| == count
         case TooLarge(size) =>
           Within(w, items[..k]) && exists j: nat :: j < k && TooLargeAt(items, j, k, size)
       }
  }

  /** The `j`th item and all below it end at the `k`th, and their sizes add up to too much. */
  ghost predicate TooLargeAt(items: seq<Item>, j: nat, k: nat, size: nat)
    requires j < k <= |items|
  {
    items[j..k] == Preorder(items[j].path, items[j].node) && MAX_SIZE < Total(items[j..k]) == size
  }

  /** What a pass that gave up leaves on record: the times of all it met. */
  ghost predicate OnRecord(w: Watched, items: seq<Item>, e: WatchError, after: Watched) {
    exists k: nat :: Stopped(w, items, k, e) && after == Recorded(w, items[..k])
  }

  lemma StoppedInside(w: Watched, met: seq<Item>, sub: seq<Item>, rest: seq<Item>, k: nat, e: WatchError)
    requires Within(w, met) && Stopped(Recorded(w, met), sub, k, e)
    ensures var items, n := met + sub + rest, |met| + k;
            Stopped(w, items, n, e) && Recorded(w, items[..n]) == Recorded(Recorded(w, met), sub[..k])
  {
    hide Recorded, Within, TooLargeAt;
    var items, n := met + sub + rest, |met| + k;
    assert items[..n] == met + sub[..k] && items[..n - 1] == met + sub[..k - 1];
    PassesCompose(w, met, sub[..k]);
    PassesCompose(w, met, sub[..k - 1]);
    assert items[n - 1] == sub[k - 1];
    if e.TooLarge? {
      var j: nat :| j < k && TooLargeAt(sub, j, k, e.size);
      LargeInside(met, sub, rest, j, k, e.size);
    }
  }

  lemma LargeInside(met: seq<Item>, sub: seq<Item>, rest: seq<Item>, j: nat, k: nat, size: nat)
    requires j < k <= |sub| && TooLargeAt(sub, j, k, size)
    ensures TooLargeAt(met + sub + rest, |met| + j, |met| + k, size)
  {
    hide Total, Preorder;
    assert (met + sub + rest)[|met| + j..|met| + k] == sub[j..k];
  }

  /** The target holds at each path what is found there in the source, a file with its bytes, a link with its
      destination, and nothing at any other path. */
  ghost predicate Copies(root: Node, t: Target) {
    forall p ::
      match Find(root, p)
      case None => p !in t
      case Some(File(data, _)) => p in t && t[p] == TFile(data)
      case Some(Link(dest, _, _)) => p in t && t[p] == TLink(dest)
      case Some(Dir(_, _)) => p in t && t[p] == TDir
  }

  /** The record holds the modification time of each path of the source, and of no other. */
  ghost predicate Times(root: Node, w: Watched) {
    forall p ::
      match Find(root, p)
      case None => p !in w
      case Some(n) => p in w && w[p] == n.mtime
  }

  lemma TableFinds(root: Node, p: Path)
    requires WellFormed(root)
    ensures var src := Table(Preorder([], root)); Find(root, p) == if p in src then Some(src[p]) else None
  {
    hide Table, Preorder, Find;
    ScannedTree(root);
    var items, src := Preorder([], root), Table(Preorder([], root));
    assert [] + p == p;
    if p in src {
      assert Listed(items, p);
      MetIsFound([], root, p, src[p]);
    } else if Find(root, p).Some? {
      MetIsFound([], root, p, Find(root, p).value);
    }
  }

  lemma CopiesMirrored(root: Node, t: Target)
    requires WellFormed(root)
    ensures Copies(root, t) <==> Mirrored(Table(Preorder([], root)), t)
  {
    hide Table, Preorder, Find;
    forall p
      ensures var src := Table(Preorder([], root)); Find(root, p) == if p in src then Some(src[p]) else None
    {
      TableFinds(root, p);
    }
  }

  lemma TimesStamped(root: Node)
    requires WellFormed(root)
    ensures Times(root, Stamps(Table(Preorder([], root))))
  {
    hide Table, Preorder, Find;
    forall p
      ensures var src := Table(Preorder([], root)); Find(root, p) == if p in src then Some(src[p]) else None
    {
      TableFinds(root, p);
    }
  }

  class Storage {
    const leads: Leads
    var watched: Watched
    var target: Target

    constructor (leads: Leads)
      ensures this.leads == leads && watched == map[] && target == map[]
    {
      this.leads, watched, target := leads, map[], map[];
    }

    method ScanPath(path: Path, n: Node) returns (r: Result<nat, WatchError>, updates: seq<Path>)
      modifies this`watched
      ensures r.Ok? <==> Total(Preorder(path, n)) <= MAX_SIZE && Within(old(watched), Preorder(path, n))
      ensures r.Ok? ==> r.value == Total(Preorder(path, n))
      ensures r.Ok? ==> watched == Recorded(old(watched), Preorder(path, n))
      ensures r.Ok? ==> updates == Updates(old(watched), Preorder(path, n))
      ensures r.Err? ==> OnRecord(old(watched), Preorder(path, n), r.error, watched)
      decreases n
    {
      hide Recorded, Updates, Within, Total;
      ghost var items := Preorder(path, n);
      assert items[0] == Item(path, n) && items[..|items|] == items;
      var size := 0;
      var isNew := path !in watched;
      var newer := !isNew && n.mtime > watched[path];
      watched := watched[path := n.mtime];
      updates := if isNew || (n.Leaf() && newer) then [path] else [];
      SingleStep(old(watched), Item(path, n));
      if n.Leaf() {
        size := n.Size();
        assert Preorder(path, n) == [Item(path, n)];
        if |watched| > MAX_ENTRIES {
          NothingMet(old(watched));
          assert items[..1] == items && items[..0] == [];
          assert Stopped(old(watched), items, 1, TooManyFiles(|watched|));
          return Err(TooManyFiles(|watched|)), updates;
        }
      } else {
        var ks := n.kids;
        ghost var met := [Item(path, n)];
        while ks.Kid?
          invariant ks == n.kids || ks < n.kids
          invariant Preorder(path, n) == met + PreorderKids(path, ks)
          invariant size == Total(met)
          invariant watched == Recorded(old(watched), met)
          invariant updates == Updates(old(watched), met)
          invariant Within(old(watched), met)
          decreases ks
        {
          ghost var sub := Preorder(path + [ks.name], ks.node);
          ghost var rest := PreorderKids(path, ks.rest);
          PassesCompose(old(watched), met, sub);
          assert Preorder(path, n) == (met + sub) + rest;
          PassesCompose(old(watched), met + sub, rest);
          var kid, more := ScanPath(path + [ks.name], ks.node);
          if kid.Err? {
            ghost var k: nat :| Stopped(Recorded(old(watched), met), sub, k, kid.error) &&
                                watched == Recorded(Recorded(old(watched), met), sub[..k]);
            StoppedInside(old(watched), met, sub, rest, k, kid.error);
            return kid, updates;
          }
          size, updates, met, ks := size + kid.value, updates + more, met + sub, ks.rest;
        }
        assert Preorder(path, n) == met;
      }
      if size > MAX_SIZE {
        assert TooLargeAt(items, 0, |items|, size);
        assert Stopped(old(watched), items, |items|, TooLarge(size));
        return Err(TooLarge(size)), updates;
      }
      r := Ok(size);
    }

    /** Remove the copies of what is gone, in whatever order the paths come. */
    method RemoveGone(gone: set<Path>, ghost was: map<Path, Node>, ghost src: map<Path, Node>, ghost items: seq<Item>)
      requires Scanned(items, src)
      requires gone == Gone(was, src)
      modifies this`target
      ensures target == Pruned(old(target), gone)
      ensures old(target) == Image(was) ==> target == KeptTarget(was, src)
    {
      hide Scanned, Thinning, RemoveOne;
      var left := gone;
      assert target == Pruned(target, gone - left);
      StartsThinning(was, src, left);
      while left != {}
        invariant left <= gone
        invariant target == Pruned(old(target), gone - left)
        invariant old(target) == Image(was) ==> Thinning(target, was, src, left)
      {
        var p :| p in left;
        PruneOne(old(target), gone - left, p);
        assert gone - (left - {p}) == gone - left + {p};
        if old(target) == Image(was) {
          RemovalThins(target, was, src, items, left, p);
        }
        target, left := RemoveOne(target, p), left - {p};
      }
      assert gone - left == gone;
      if old(target) == Image(was) {
        Thinned(target, was, src);
      }
    }

    static lemma StartsThinning(was: map<Path, Node>, src: map<Path, Node>, gone: set<Path>)
      requires gone == Gone(was, src)
      ensures Thinning(Image(was), was, src, gone)
    {
    }

    method CopyUpdates(src: map<Path, Node>, updates: seq<Path>)
      requires forall i :: 0 <= i < |updates| ==> updates[i] in src
      modifies this`target
      ensures target == Replay(leads, old(target), src, updates)
    {
      hide UpdateTarget;
      assert updates[..|updates|] == updates;
      for i := 0 to |updates|
        invariant target == Replay(leads, old(target), src, updates[..i])
      {
        assert updates[..i + 1][..i] == updates[..i];
        target := UpdateTarget(leads, target, updates[i], src[updates[i]]);
      }
    }

    /** One scan of a mount whose record is that of `was`, which the last scan saw if it succeeded. */
    method Scan(root: Node, ghost was: map<Path, Node>) returns (r: Result<nat, WatchError>)
      requires WellFormed(root) && !root.Link?
      requires watched == Stamps(was)
      modifies this
      ensures var items := Preorder([], root);
              var src := Table(items);
              && (r.Ok? <==> Total(items) <= MAX_SIZE && Within(KeptStamps(was, src), items))
              && (r.Ok? ==> watched == Stamps(src) && r.value == |DuePaths(KeptStamps(was, src), items)|)
              && (r.Ok? ==> Times(root, watched))
              && (r.Ok? && Mirrored(was, old(target)) ==> (Copies(root, target) <==> Faithful(was, src)))
              && (r.Err? && Mirrored(was, old(target)) ==> target == KeptTarget(was, src))
              && (r.Err? ==> OnRecord(KeptStamps(was, src), items, r.error, watched))
              && (r.Err? ==> target == Pruned(old(target), Gone(was, src)))
              && (r.Ok? ==>
                   target == Applied(leads, KeptStamps(was, src), Pruned(old(target), Gone(was, src)), items))
    {
      hide Scanned, Faithful, Total, Within, Recorded, Updates, Table, Preorder, Applied, Replay, DuePaths, Image;
      hide Pruned, Stopped, Mirrored, Copies, Times;
      ScannedTree(root);
      ImageMirrors(was, target);
      TimesStamped(root);
      ghost var items := Preorder([], root);
      var src := Table(Preorder([], root));
      var gone := set p | p in watched && !Exists(src, p);
      RemoveGone(gone, was, src, items);
      watched := watched - gone;
      assert watched == KeptStamps(was, src);
      var size, updates := ScanPath([], root);
      if size.Err? {
        return Err(size.error);
      }
      ScanFacts(leads, target, was, src, items);
      ScanFacts(leads, KeptTarget(was, src), was, src, items);
      MirrorsExactly(leads, was, src, items);
      CopyUpdates(src, updates);
      CopiesMirrored(root, target);
      r := Ok(|updates|);
    }

    /** What the scan before the `i`th saw. */
    static ghost function Before(roots: seq<Node>, i: nat): map<Path, Node>
      requires i <= |roots|
    {
      if i == 0 then map[] else Table(Preorder([], roots[i - 1]))
    }

    /** Every scan from the first to before the `n`th could follow what changed. */
    static ghost predicate AllFollowed(roots: seq<Node>, n: nat)
      requires n <= |roots|
    {
      forall i: nat :: i < n ==> Faithful(Before(roots, i), Before(roots, i + 1))
    }

    /** The `i`th scan finds the source within both limits. */
    static ghost predicate Affordable(roots: seq<Node>, i: nat)
      requires i < |roots|
    {
      var items := Preorder([], roots[i]);
      Total(items) <= MAX_SIZE && Within(KeptStamps(Before(roots, i), Before(roots, i + 1)), items)
    }

    /** A mount scanned again and again while the source changes between scans. */
    method Watch(roots: seq<Node>) returns (ok: bool)
      requires forall i :: 0 <= i < |roots| ==> WellFormed(roots[i]) && !roots[i].Link?
      requires watched == map[] && target == map[]
      modifies this
      ensures ok <==> forall i: nat :: i < |roots| ==> Affordable(roots, i)
      ensures ok && roots == [] ==> watched == map[] && target == map[]
      ensures ok && roots != [] ==> Times(roots[|roots| - 1], watched)
      ensures ok && roots != [] && AllFollowed(roots, |roots| - 1) ==>
        (Copies(roots[|roots| - 1], target) <==> AllFollowed(roots, |roots|))
    {
      hide Faithful, Total, Within, Recorded, Table, Preorder, DuePaths, KeptStamps, KeptTarget, Applied, Pruned;
      hide Mirrored, Copies, Times, OnRecord;
      NothingMirrored();
      for i := 0 to |roots|
        invariant watched == Stamps(Before(roots, i))
        invariant forall j: nat :: j < i ==> Affordable(roots, j)
        invariant i > 0 ==> Times(roots[i - 1], watched)
        invariant i == 0 ==> watched == map[] && target == map[]
        invariant AllFollowed(roots, i) ==> Mirrored(Before(roots, i), target)
        invariant i > 0 && AllFollowed(roots, i - 1) ==> (Copies(roots[i - 1], target) <==> AllFollowed(roots, i))
      {
        var r := Scan(roots[i], Before(roots, i));
        CopiesMirrored(roots[i], target);
        assert r.Ok? <==> Affordable(roots, i);
        if r.Err? {
          return false;
        }
      }
      ok := true;
    }

    static lemma NothingMirrored()
      ensures Mirrored(map[], map[])
    {
    }

    static lemma ScanFacts(leads: Leads, t: Target, was: map<Path, Node>, src: map<Path, Node>, items: seq<Item>)
      requires Scanned(items, src) && src == Table(items)
      ensures var w := KeptStamps(was, src);
              && Recorded(w, items) == Stamps(src)
              && Updates(w, items) == DuePaths(w, items)
              && (forall i :: 0 <= i < |DuePaths(w, items)| ==> DuePaths(w, items)[i] in src)
              && Replay(leads, t, src, DuePaths(w, items)) == Applied(leads, w, t, items)
    {
      hide Recorded, Updates, DuePaths, Replay, Applied, Table, ParentsFirst;
      var w := KeptStamps(was, src);
      RecordedIsStamps(w, items);
      assert w + Stamps(src) == Stamps(src);
      UpdatesAreTheDue(w, items);
      ReplayIsApplied(leads, w, t, items, src);
    }
  }

  lemma OneLeaf(n: Node, w: Watched)
    requires n.File?
    ensures Preorder([], n) == [Item([], n)] && Table(Preorder([], n)) == map[[] := n]
    ensures Total(Preorder([], n)) == |n.data|
    ensures Within(w, Preorder([], n)) <==> |w[[] := n.mtime]| <= MAX_ENTRIES
    ensures DuePaths(w, Preorder([], n)) == if Due(w, Item([], n)) then [[]] else []
  {
    SingleStep(w, Item([], n));
    assert Preorder([], n)[..0] == [];
  }

  /** A file that changed within the resolution of its modification time: the scan succeeds and copies nothing. */
  method ChangeUnseen(leads: Leads) returns (s: Storage, r: Result<nat, WatchError>)
    ensures r == Ok(0) && !Copies(File("b", 1), s.target)
  {
    hide Preorder, Table, Total, Within, DuePaths, Copies, Times, Applied, Pruned, OnRecord, Image;
    var before, after := File("a", 1), File("b", 1);
    ghost var root: Path := [];
    ghost var was, src := map[root := before], map[root := after];
    OneLeaf(before, KeptStamps(map[], was));
    OneLeaf(after, KeptStamps(was, src));
    s := new Storage(leads);
    assert KeptStamps(map[], was) == map[] && |map[root := 1]| == 1;
    var first := s.Scan(before, map[]);
    assert Faithful(map[], was);
    CopiesMirrored(before, s.target);
    assert root in Kept(was, src) && KeptStamps(was, src) == map[root := 1];
    r := s.Scan(after, was);
    assert !Followed(was[root], src[root]);
  }

  /** A directory with one entry. */
  function Holding(name: string, n: Node): Node {
    Dir(1, Kid(name, n, NoKids))
  }

  lemma OneEntry(name: string, n: Node, w: Watched)
    requires n.Leaf()
    ensures WellFormed(Holding(name, n))
    ensures var d, items := Holding(name, n), Preorder([], Holding(name, n));
            && items == [Item([], d), Item([name], n)]
            && Table(items) == map[[] := d, [name] := n]
            && Total(items) == n.Size()
            && (Within(w, items) <==> |w[[] := 1][[name] := n.mtime]| <= MAX_ENTRIES)
            && |DuePaths(w, items)| ==
               (if Due(w, Item([], d)) then 1 else 0) + if Due(w, Item([name], n)) then 1 else 0
  {
    hide Due;
    var d := Holding(name, n);
    assert WellFormedKids(d.kids);
    var a, b := Item([], d), Item([name], n);
    assert [] + [name] == [name];
    assert PreorderKids([], d.kids) == Preorder([name], n) + [];
    assert Preorder([], d) == [a, b];
    SingleStep(w, a);
    assert [a, b][..1] == [a] && [a][..0] == [];
    assert Table([a]) == map[a.path := a.node] && Table([a, b]) == Table([a])[b.path := b.node];
    assert DuePaths(w, [a]) == if Due(w, a) then [a.path] else [];
    assert DuePaths(w, [a, b]) == DuePaths(w, [a]) + if Due(w, b) then [b.path] else [];
  }

  /** A second scan of an unchanged source that is not idle: the dangling link is copied again. */
  method LinkCopiedAgain(leads: Leads) returns (s: Storage, r: Result<nat, WatchError>)
    ensures r == Ok(1)
  {
    hide Preorder, Table, Total, Within, DuePaths;
    var link := Link("x", 1, true);
    ghost var root: Path := [];
    ghost var src := map[root := Holding("l", link), ["l"] := link];
    OneEntry("l", link, KeptStamps(map[], src));
    OneEntry("l", link, KeptStamps(src, src));
    s := new Storage(leads);
    assert KeptStamps(map[], src) == map[] && |map[root := 1][["l"] := 1]| == 2;
    assert KeptStamps(src, src) == map[root := 1];
    var first := s.Scan(Holding("l", link), map[]);
    r := s.Scan(Holding("l", link), src);
  }

  /** A file beside one that is too large. */
  function Crowded(n: Node): Node {
    Dir(1, Kid("f", n, Kid("g", File(seq(MAX_SIZE + 1, _ => 'x'), 1), NoKids)))
  }

  /** A scan that meets the large file fails, with the other file's time on record. */
  lemma CrowdedStops(n: Node, w: Watched, e: WatchError, after: Watched) returns (saw: map<Path, Node>)
    requires n.File? && w.Keys == {[], ["f"]}
    requires OnRecord(w, Preorder([], Crowded(n)), e, after)
    ensures after == Stamps(saw) && saw.Keys <= {[], ["f"], ["g"]}
    ensures [] in saw && saw[[]] == Crowded(n) && ["f"] in saw && saw[["f"]] == n
  {
    hide Recorded, Within, Total, Table, Preorder;
    var items := Preorder([], Crowded(n));
    var k: nat :| Stopped(w, items, k, e) && after == Recorded(w, items[..k]);
    CrowdedPast(n, w, k, e);
    saw := Table(items[..k]);
    CrowdedTable(n, k);
    RecordedIsStamps(w, items[..k]);
  }

  lemma CrowdedItems(n: Node)
    requires n.File?
    ensures WellFormed(Crowded(n))
    ensures var d, g := Crowded(n), File(seq(MAX_SIZE + 1, _ => 'x'), 1);
            Preorder([], d) == [Item([], d), Item(["f"], n), Item(["g"], g)] && Total(Preorder([], d)) > MAX_SIZE
  {
    var d, g := Crowded(n), File(seq(MAX_SIZE + 1, _ => 'x'), 1);
    assert "f"[0] != "g"[0] && WellFormedKids(NoKids) && WellFormedKids(d.kids.rest) && WellFormedKids(d.kids);
    assert [] + ["f"] == ["f"] && [] + ["g"] == ["g"];
    assert PreorderKids([], d.kids.rest) == Preorder(["g"], g) + [];
    assert PreorderKids([], d.kids) == Preorder(["f"], n) + PreorderKids([], d.kids.rest);
    assert Preorder([], d)[2] == Item(["g"], g);
  }

  lemma CrowdedPast(n: Node, w: Watched, k: nat, e: WatchError)
    requires n.File? && Stopped(w, Preorder([], Crowded(n)), k, e)
    ensures 1 < k <= 3
  {
    hide Recorded, Within, Preorder;
    CrowdedItems(n);
  }

  lemma CrowdedTable(n: Node, k: nat)
    requires n.File? && 1 < k <= 3
    ensures k <= |Preorder([], Crowded(n))|
    ensures var saw := Table(Preorder([], Crowded(n))[..k]);
            && saw.Keys <= {[], ["f"], ["g"]}
            && [] in saw && saw[[]] == Crowded(n) && ["f"] in saw && saw[["f"]] == n
  {
    hide Preorder;
    CrowdedItems(n);
    var items := Preorder([], Crowded(n));
    assert items[..1][..0] == [] && Table(items[..1]) == map[[] := Crowded(n)];
    assert items[..2][..1] == items[..1] && Table(items[..2]) == Table(items[..1])[["f"] := n];
    assert k == 3 ==> items[..k][..2] == items[..2] && Table(items[..k]) == Table(items[..2])[["g"] := items[2].node];
  }

  /** The last scan of the three below: what it finds on record makes it copy nothing. */
  lemma NothingToDo(leads: Leads, was: Node, now: Node, saw: map<Path, Node>)
    requires was.File? && now.File? && saw.Keys <= {[], ["f"], ["g"]}
    requires [] in saw && saw[[]] == Crowded(now) && ["f"] in saw && saw[["f"]] == now
    ensures var items := Preorder([], Holding("f", now));
            var src, t := Table(items), Image(map[[] := Holding("f", was), ["f"] := was]);
            && Total(items) == now.Size()
            && Within(KeptStamps(saw, src), items)
            && DuePaths(KeptStamps(saw, src), items) == []
            && Applied(leads, KeptStamps(saw, src), Pruned(t, Gone(saw, src)), items) == t
  {
    hide Preorder, Table, Total, Within, UpdateTarget;
    var items, src := Preorder([], Holding("f", now)), Table(Preorder([], Holding("f", now)));
    var root: Path := [];
    var w, t := KeptStamps(saw, src), Image(map[root := Holding("f", was), ["f"] := was]);
    OneEntry("f", now, w);
    assert w == map[root := 1, ["f"] := now.mtime] && w[root := 1][["f"] := now.mtime] == w && |w| == 2;
    assert Gone(saw, src) <= {["g"]} && ["g"] !in t;
    assert Pruned(t, Gone(saw, src)) == t;
    assert items[..1][..0] == [];
    assert !Due(w, items[0]) && !Due(w, items[1]);
    assert Applied(leads, w, t, items[..1]) == t;
  }

  /** What the first scan of a directory with one file records and copies. */
  method FirstScan(s: Storage, n: Node)
    requires n.File? && n.Size() <= MAX_SIZE && s.watched == map[] && s.target == map[]
    modifies s
    ensures var src := map[[] := Holding("f", n), ["f"] := n]; s.watched == Stamps(src) && s.target == Image(src)
  {
    hide Preorder, Table, Total, Within, DuePaths, Pruned, Applied, Copies, Times, OnRecord, Mirrored;
    ghost var root: Path := [];
    ghost var src := map[root := Holding("f", n), ["f"] := n];
    Storage.NothingMirrored();
    OneEntry("f", n, KeptStamps(map[], src));
    assert KeptStamps(map[], src) == map[] && |map[root := 1][["f"] := n.mtime]| == 2;
    var first := s.Scan(Holding("f", n), map[]);
    assert Faithful(map[], src);
    CopiesMirrored(Holding("f", n), s.target);
    ImageMirrors(src, s.target);
  }

  /** The scan that then meets the large file. */
  method FailedScan(s: Storage, was: Node, now: Node) returns (r: Result<nat, WatchError>, ghost saw: map<Path, Node>)
    requires was.File? && now.File?
    requires var src := map[[] := Holding("f", was), ["f"] := was]; s.watched == Stamps(src) && s.target == Image(src)
    modifies s
    ensures r.Err? && s.target == old(s.target)
    ensures s.watched == Stamps(saw) && saw.Keys <= {[], ["f"], ["g"]}
    ensures [] in saw && saw[[]] == Crowded(now) && ["f"] in saw && saw[["f"]] == now
  {
    hide Preorder, Table, Total, Within, DuePaths, Pruned, Applied, Recorded, OnRecord, Faithful, Copies, Times;
    hide Mirrored;
    ghost var root: Path := [];
    ghost var src := map[root := Holding("f", was), ["f"] := was];
    ghost var large := Table(Preorder([], Crowded(now)));
    CrowdedItems(now);
    CrowdedTable(now, 3);
    assert Preorder([], Crowded(now))[..3] == Preorder([], Crowded(now));
    assert Kept(src, large) == {root, ["f"]};
    ImageMirrors(src, s.target);
    r := s.Scan(Crowded(now), src);
    saw := CrowdedStops(now, KeptStamps(src, large), r.error, s.watched);
  }

  /** A scan that fails has put on record what it did not copy. Once the source is small enough again, the next scan
      succeeds, finds nothing to do and leaves the old copy. */
  method FailureForgets(leads: Leads) returns (s: Storage, failed: Result<nat, WatchError>, r: Result<nat, WatchError>)
    ensures failed.Err? && r == Ok(0)
    ensures s.watched == Stamps(Table(Preorder([], Holding("f", File("b", 2)))))
    ensures ["f"] in s.target && s.target[["f"]] == TFile("a")
  {
    hide Preorder, Table, Total, Within, DuePaths, Pruned, Applied, OnRecord, Faithful;
    var was, now := File("a", 1), File("b", 2);
    s := new Storage(leads);
    FirstScan(s, was);
    ghost var saw;
    failed, saw := FailedScan(s, was, now);
    NothingToDo(leads, was, now, saw);
    r := s.Scan(Holding("f", now), saw);
  }
}
