/** Where guest memory goes: NUMA regions laid out around the low MMIO window. */
module MemoryLayouts {
  import opened Wrappers
  import opened Ranges
  import opened Layouts

  const MINIMAL_SPLIT_SPACE: nat := 0x800_0000
  const MIB: nat := 0x10_0000

  datatype Region = Region(start: nat, size: nat) {
    function End(): nat {
      start + size
    }
  }

  datatype NumaRegionInfo = NumaRegionInfo(sizeMib: nat, guestNumaNode: Option<nat>) {
    function Node(): nat {
      if guestNumaNode.Some? then guestNumaNode.value else 0
    }
  }

  /** `checked_shl(20)` never fails for a shift below 64: the high bits are simply lost. */
  function Bytes(info: NumaRegionInfo): (b: nat)
    ensures b <= U64_MAX
  {
    info.sizeMib * MIB % (U64_MAX + 1)
  }

  /** Unchecked `u64` addition. */
  function WrapAdd(a: nat, b: nat): nat {
    (a + b) % (U64_MAX + 1)
  }

  /** Memory that fits below the window, or lies above it, goes where the last region ended. */
  predicate Straight(l: Layout, start: nat, size: nat) {
    start > l.mmioLowEnd || start + size <= l.mmioLowStart
  }

  /** How much of a region that meets the window stays below it. */
  function Below(l: Layout, start: nat): nat
    requires start <= l.mmioLowStart
  {
    if l.mmioLowStart - start < MINIMAL_SPLIT_SPACE then 0 else l.mmioLowStart - start
  }

  /** No address counter ever points into the window. */
  predicate Outside(l: Layout, start: nat) {
    start <= l.mmioLowStart || start > l.mmioLowEnd
  }

  /** The regions for one NUMA size, in unbounded arithmetic. */
  function Place(l: Layout, start: nat, size: nat): (rs: seq<Region>)
    requires Outside(l, start)
    ensures 1 <= |rs| <= 2 && Outside(l, rs[|rs| - 1].End())
  {
    if Straight(l, start, size) then [Region(start, size)]
    else
      var below := Below(l, start);
      var above := Region(l.mmioLowEnd + 1, size - below);
      if below == 0 then [above] else [Region(start, below), above]
  }

  function Next(l: Layout, start: nat, size: nat): (n: nat)
    requires Outside(l, start)
    ensures Outside(l, n)
  {
    var rs := Place(l, start, size);
    rs[|rs| - 1].End()
  }

  /** All regions, and the address behind the last one. */
  function Regions(l: Layout, start: nat, sizes: seq<nat>): seq<Region>
    requires Outside(l, start)
    decreases |sizes|
  {
    if sizes == [] then [] else Place(l, start, sizes[0]) + Regions(l, Next(l, start, sizes[0]), sizes[1..])
  }

  function End(l: Layout, start: nat, sizes: seq<nat>): nat
    requires Outside(l, start)
    decreases |sizes|
  {
    if sizes == [] then start else End(l, Next(l, start, sizes[0]), sizes[1..])
  }

  function Total(rs: seq<Region>): nat {
    if rs == [] then 0 else rs[0].size + Total(rs[1..])
  }

  function Sum(xs: seq<nat>): nat {
    if xs == [] then 0 else xs[0] + Sum(xs[1..])
  }

  function Sizes(infos: seq<NumaRegionInfo>): (xs: seq<nat>)
    ensures |xs| == |infos| && forall i :: 0 <= i < |xs| ==> xs[i] == Bytes(infos[i])
  {
    seq(|infos|, i requires 0 <= i < |infos| => Bytes(infos[i]))
  }

  /** Ascending and disjoint, clear of the window, inside `[lo, hi]`. */
  predicate Sound(l: Layout, rs: seq<Region>, lo: nat, hi: nat) {
    && (forall i :: 0 <= i < |rs| ==> lo <= rs[i].start && rs[i].End() <= hi)
    && (forall i :: 0 <= i < |rs| ==> rs[i].End() <= l.mmioLowStart || rs[i].start > l.mmioLowEnd)
    && (forall i, j :: 0 <= i < j < |rs| ==> rs[i].End() <= rs[j].start)
  }

  predicate InSome(rs: seq<Region>, x: int) {
    exists i :: 0 <= i < |rs| && rs[i].start <= x < rs[i].End()
  }

  /** The only addresses a layout skips: the window, and less than the minimal split space below it. */
  predicate Skipped(l: Layout, x: int) {
    l.mmioLowStart - MINIMAL_SPLIT_SPACE < x <= l.mmioLowEnd
  }

  predicate Dense(l: Layout, rs: seq<Region>, lo: nat, hi: nat) {
    forall x :: lo <= x < hi ==> InSome(rs, x) || Skipped(l, x)
  }

  lemma PlaceIsSound(l: Layout, start: nat, size: nat)
    requires l.WellFormed() && Outside(l, start)
    ensures var rs := Place(l, start, size);
            && Sound(l, rs, start, Next(l, start, size)) && Dense(l, rs, start, Next(l, start, size))
            && Total(rs) == size && start + size <= Next(l, start, size)
            && (|rs| == 2 ==> start <= l.mmioLowStart < Next(l, start, size))
            && (size > 0 <==> forall i :: 0 <= i < |rs| ==> rs[i].size > 0)
  {
    var rs := Place(l, start, size);
    assert rs[0] in rs && rs[|rs| - 1] in rs;
    if |rs| == 2 {
      assert rs[1..] == [rs[1]];
      assert Total(rs[1..]) == rs[1].size + Total([]);
    } else {
      assert rs[1..] == [];
    }
    forall x | start <= x < Next(l, start, size)
      ensures InSome(rs, x) || Skipped(l, x)
    {
      assert rs[0].start <= x < rs[0].End() || rs[|rs| - 1].start <= x < rs[|rs| - 1].End() || Skipped(l, x);
    }
  }

  lemma {:induction false} TotalConcat(a: seq<Region>, b: seq<Region>)
    ensures Total(a + b) == Total(a) + Total(b)
  {
    if a == [] {
      assert a + b == b;
    } else {
      assert (a + b)[1..] == a[1..] + b;
      TotalConcat(a[1..], b);
    }
  }

  /** Layout soundness for every list of sizes: the regions are ascending, disjoint and clear of the window,
      hold exactly the requested bytes, are at most one more than the sizes, and leave only the window and a
      small gap below it unused. */
  lemma {:induction false} LayoutIsSound(l: Layout, start: nat, sizes: seq<nat>)
    requires l.WellFormed() && Outside(l, start)
    ensures var rs, end := Regions(l, start, sizes), End(l, start, sizes);
            && start <= end && Sound(l, rs, start, end) && Dense(l, rs, start, end) && Total(rs) == Sum(sizes)
            && |sizes| <= |rs| <= |sizes| + (if start > l.mmioLowEnd then 0 else 1)
            && ((forall i :: 0 <= i < |sizes| ==> sizes[i] > 0) <==> (forall i :: 0 <= i < |rs| ==> rs[i].size > 0))
    decreases |sizes|
  {
    hide Place, Next, InSome, Skipped, Dense;
    if sizes != [] {
      var here, next := Place(l, start, sizes[0]), Next(l, start, sizes[0]);
      var rest, end := Regions(l, next, sizes[1..]), End(l, next, sizes[1..]);
      PlaceIsSound(l, start, sizes[0]);
      LayoutIsSound(l, next, sizes[1..]);
      TotalConcat(here, rest);
      JoinSound(l, here, rest, start, next, end);
      JoinDense(l, here, rest, start, next, end);
      JoinPositive(here, rest, sizes);
    } else {
      NothingSkipped(l, start);
    }
  }

  lemma NothingSkipped(l: Layout, start: nat)
    ensures Dense(l, [], start, start)
  {
  }

  lemma JoinSound(l: Layout, a: seq<Region>, b: seq<Region>, lo: nat, mid: nat, hi: nat)
    requires lo <= mid <= hi && Sound(l, a, lo, mid) && Sound(l, b, mid, hi)
    ensures Sound(l, a + b, lo, hi)
  {
  }

  lemma JoinDense(l: Layout, a: seq<Region>, b: seq<Region>, lo: nat, mid: nat, hi: nat)
    requires lo <= mid <= hi && Dense(l, a, lo, mid) && Dense(l, b, mid, hi)
    ensures Dense(l, a + b, lo, hi)
  {
    forall x | lo <= x < hi
      ensures InSome(a + b, x) || Skipped(l, x)
    {
      if x < mid && InSome(a, x) {
        var i :| 0 <= i < |a| && a[i].start <= x < a[i].End();
        assert (a + b)[i] == a[i];
      } else if x >= mid && InSome(b, x) {
        var i :| 0 <= i < |b| && b[i].start <= x < b[i].End();
        assert (a + b)[|a| + i] == b[i];
      }
    }
  }

  lemma JoinPositive(a: seq<Region>, b: seq<Region>, sizes: seq<nat>)
    requires sizes != []
    requires sizes[0] > 0 <==> forall i :: 0 <= i < |a| ==> a[i].size > 0
    requires (forall i :: 0 <= i < |sizes| - 1 ==> sizes[1..][i] > 0) <==> (forall i :: 0 <= i < |b| ==> b[i].size > 0)
    ensures (forall i :: 0 <= i < |sizes| ==> sizes[i] > 0) <==> (forall i :: 0 <= i < |a + b| ==> (a + b)[i].size > 0)
  {
    if forall i :: 0 <= i < |sizes| ==> sizes[i] > 0 {
      forall i | 0 <= i < |sizes| - 1
        ensures sizes[1..][i] > 0
      {
        assert sizes[1..][i] == sizes[i + 1];
      }
      assert forall i :: 0 <= i < |b| ==> b[i].size > 0;
    }
    if forall i :: 0 <= i < |a + b| ==> (a + b)[i].size > 0 {
      forall i | 0 <= i < |a|
        ensures a[i].size > 0
      {
        assert (a + b)[i] == a[i];
      }
      forall i | 0 <= i < |b|
        ensures b[i].size > 0
      {
        assert (a + b)[|a| + i] == b[i];
      }
      forall i | 0 <= i < |sizes|
        ensures sizes[i] > 0
      {
        assert i > 0 ==> sizes[i] == sizes[1..][i - 1];
      }
    }
  }

  lemma {:induction false} LayoutAppends(l: Layout, start: nat, xs: seq<nat>, ys: seq<nat>)
    requires l.WellFormed() && Outside(l, start)
    ensures Outside(l, End(l, start, xs))
    ensures Regions(l, start, xs + ys) == Regions(l, start, xs) + Regions(l, End(l, start, xs), ys)
    ensures End(l, start, xs + ys) == End(l, End(l, start, xs), ys)
    decreases |xs|
  {
    hide Place, Next, Outside;
    if xs == [] {
      assert xs + ys == ys;
    } else {
      assert (xs + ys)[1..] == xs[1..] + ys;
      LayoutAppends(l, Next(l, start, xs[0]), xs[1..], ys);
    }
  }

  lemma LayoutStep(l: Layout, start: nat, xs: seq<nat>, x: nat)
    requires l.WellFormed() && Outside(l, start)
    ensures Outside(l, End(l, start, xs))
    ensures Regions(l, start, xs + [x]) == Regions(l, start, xs) + Place(l, End(l, start, xs), x)
    ensures End(l, start, xs + [x]) == Next(l, End(l, start, xs), x)
  {
    hide Place, Next, Outside;
    LayoutAppends(l, start, xs, [x]);
    var at := End(l, start, xs);
    assert [x][1..] == [];
    assert Regions(l, at, [x]) == Place(l, at, x) + Regions(l, Next(l, at, x), []);
  }

  lemma EndGrows(l: Layout, start: nat, sizes: seq<nat>, i: nat)
    requires l.WellFormed() && Outside(l, start) && i <= |sizes|
    ensures End(l, start, sizes[..i]) <= End(l, start, sizes)
  {
    hide Sound, Dense, Place, Next, Total, Sum, End, Regions;
    LayoutAppends(l, start, sizes[..i], sizes[i..]);
    LayoutIsSound(l, End(l, start, sizes[..i]), sizes[i..]);
    assert sizes == sizes[..i] + sizes[i..];
  }

  /** Regions of these sizes, each starting where the one before ends. */
  predicate Stacked(rs: seq<Region>, at: nat, sizes: seq<nat>) {
    |rs| == |sizes| && forall i :: 0 <= i < |rs| ==> rs[i] == Region(at + Sum(sizes[..i]), sizes[i])
  }

  /** The size with index `c` is the one that does not end below the window. */
  predicate Reaches(l: Layout, start: nat, sizes: seq<nat>, c: nat) {
    c < |sizes| && start + Sum(sizes[..c]) <= l.mmioLowStart < start + Sum(sizes[..c + 1])
  }

  /** Stacked below the window up to the size that reaches it. That one is split at the window if 128 MiB or more are
      left below it, and else lies wholly above it. The rest is stacked behind it. */
  predicate LaidAround(l: Layout, start: nat, sizes: seq<nat>, c: nat, rs: seq<Region>, end: nat)
    requires Reaches(l, start, sizes, c)
  {
    var at := start + Sum(sizes[..c]);
    var room := l.mmioLowStart - at;
    && c < |rs| && Stacked(rs[..c], start, sizes[..c])
    && if room >= 0x800_0000 then
         && rs[c].start == at && rs[c].End() == l.mmioLowStart
         && sizes[c] > room && Stacked(rs[c + 1..], l.mmioLowEnd + 1, [(sizes[c] - room) as nat] + sizes[c + 1..])
         && end == l.mmioLowEnd + 1 + Sum(sizes[c..]) - room
       else
         Stacked(rs[c..], l.mmioLowEnd + 1, sizes[c..]) && end == l.mmioLowEnd + 1 + Sum(sizes[c..])
  }

  /** Where all the memory goes, and where it ends. */
  ghost predicate LaidOut(l: Layout, start: nat, sizes: seq<nat>, rs: seq<Region>, end: nat) {
    if start > l.mmioLowEnd || start + Sum(sizes) <= l.mmioLowStart then
      Stacked(rs, start, sizes) && end == start + Sum(sizes)
    else
      exists c: nat :: Reaches(l, start, sizes, c) && LaidAround(l, start, sizes, c, rs, end)
  }

  lemma SumFirst(sizes: seq<nat>, i: nat)
    requires 0 < i <= |sizes|
    ensures Sum(sizes[..i]) == sizes[0] + Sum(sizes[1..][..i - 1])
  {
    assert sizes[..i][1..] == sizes[1..][..i - 1];
  }

  lemma StackedOn(at: nat, n: nat, rs: seq<Region>, sizes: seq<nat>)
    requires Stacked(rs, at + n, sizes)
    ensures Stacked([Region(at, n)] + rs, at, [n] + sizes)
  {
    var all, sums := [Region(at, n)] + rs, [n] + sizes;
    assert sums[1..] == sizes;
    forall i | 0 <= i < |all|
      ensures all[i] == Region(at + Sum(sums[..i]), sums[i])
    {
      if i > 0 {
        SumFirst(sums, i);
        assert all[i] == rs[i - 1];
      }
    }
  }

  lemma {:induction false} StackedAbove(l: Layout, start: nat, sizes: seq<nat>)
    requires start > l.mmioLowEnd
    ensures Stacked(Regions(l, start, sizes), start, sizes) && End(l, start, sizes) == start + Sum(sizes)
    decreases |sizes|
  {
    if sizes != [] {
      StackedAbove(l, start + sizes[0], sizes[1..]);
      StackedOn(start, sizes[0], Regions(l, start + sizes[0], sizes[1..]), sizes[1..]);
      assert [sizes[0]] + sizes[1..] == sizes;
    }
  }

  /** The first size meets the window. */
  lemma LaidAcross(l: Layout, start: nat, sizes: seq<nat>)
    requires l.WellFormed() && start <= l.mmioLowStart && Reaches(l, start, sizes, 0)
    ensures LaidAround(l, start, sizes, 0, Regions(l, start, sizes), End(l, start, sizes))
  {
    hide Stacked, Layout.WellFormed;
    var room, rs := l.mmioLowStart - start, Regions(l, start, sizes);
    FirstAcross(l, start, sizes, if room < MINIMAL_SPLIT_SPACE then 0 else room);
    NothingStacked(start);
    assert Sum(sizes[..0]) == 0 && rs[..0] == [] && sizes[..0] == [] && sizes[0..] == sizes && rs[0..] == rs;
    assert [sizes[0]] + sizes[1..] == sizes;
  }

  lemma FirstAcross(l: Layout, start: nat, sizes: seq<nat>, kept: nat)
    requires l.WellFormed() && start <= l.mmioLowStart && Reaches(l, start, sizes, 0)
    requires kept == if l.mmioLowStart - start < MINIMAL_SPLIT_SPACE then 0 else l.mmioLowStart - start
    ensures kept < sizes[0] && End(l, start, sizes) == l.mmioLowEnd + 1 + Sum(sizes) - kept
    ensures var rs := Regions(l, start, sizes);
            && rs != [] && (kept > 0 ==> rs[0] == Region(start, kept))
            && Stacked(if kept > 0 then rs[1..] else rs, l.mmioLowEnd + 1, [sizes[0] - kept] + sizes[1..])
  {
    hide Stacked;
    var n, rest, top := sizes[0], sizes[1..], l.mmioLowEnd + 1;
    SumFirst(sizes, 1);
    assert Sum(sizes[..0]) == 0 && Sum(rest[..0]) == 0;
    StackedAbove(l, top + n - kept, rest);
    StackedOn(top, n - kept, Regions(l, top + n - kept, rest), rest);
    var rs := Regions(l, start, sizes);
    assert (if kept > 0 then rs[1..] else rs) == [Region(top, n - kept)] + Regions(l, top + n - kept, rest);
  }

  lemma NothingStacked(at: nat)
    ensures Stacked([], at, [])
  {
  }

  /** The first size fits below the window, and a later one meets it. */
  lemma LaidLater(l: Layout, start: nat, sizes: seq<nat>, c: nat, rs: seq<Region>, end: nat)
    requires sizes != [] && start + sizes[0] <= l.mmioLowStart
    requires Reaches(l, start + sizes[0], sizes[1..], c) && LaidAround(l, start + sizes[0], sizes[1..], c, rs, end)
    ensures Reaches(l, start, sizes, c + 1)
    ensures LaidAround(l, start, sizes, c + 1, [Region(start, sizes[0])] + rs, end)
  {
    hide Stacked;
    var n, rest, all := sizes[0], sizes[1..], [Region(start, sizes[0])] + rs;
    SumFirst(sizes, c + 1);
    SumFirst(sizes, c + 2);
    StackedOn(start, n, rs[..c], rest[..c]);
    assert sizes[..c + 1] == [n] + rest[..c] && all[..c + 1] == [Region(start, n)] + rs[..c];
    assert sizes[c + 1..] == rest[c..] && sizes[c + 2..] == rest[c + 1..];
    assert all[c + 1..] == rs[c..] && all[c + 2..] == rs[c + 1..];
  }

  /** The layout is exactly that, for every list of sizes. */
  lemma {:induction false} LayoutIsExact(l: Layout, start: nat, sizes: seq<nat>)
    requires l.WellFormed() && Outside(l, start)
    ensures LaidOut(l, start, sizes, Regions(l, start, sizes), End(l, start, sizes))
    decreases |sizes|
  {
    hide LaidAround, Stacked;
    if start > l.mmioLowEnd {
      StackedAbove(l, start, sizes);
    } else if sizes == [] {
      NothingStacked(start);
    } else if start + sizes[0] <= l.mmioLowStart {
      var next, rest := start + sizes[0], sizes[1..];
      LayoutIsExact(l, next, rest);
      var rs, end := Regions(l, next, rest), End(l, next, rest);
      if next + Sum(rest) <= l.mmioLowStart {
        StackedOn(start, sizes[0], rs, rest);
        assert [sizes[0]] + rest == sizes;
      } else {
        var c: nat :| Reaches(l, next, rest, c) && LaidAround(l, next, rest, c, rs, end);
        LaidLater(l, start, sizes, c, rs, end);
      }
    } else {
      SumFirst(sizes, 1);
      assert Sum(sizes[..0]) == 0 && Sum(sizes[1..][..0]) == 0;
      LaidAcross(l, start, sizes);
    }
  }

  /** Memory for no particular node goes to node zero. */
  predicate ForNode(info: NumaRegionInfo, node: nat) {
    info.guestNumaNode == Some(node) || (info.guestNumaNode == None && node == 0)
  }

  /** The bytes requested for one guest NUMA node. */
  function NodeTotal(infos: seq<NumaRegionInfo>, node: nat): nat {
    if infos == [] then 0
    else
      (if ForNode(infos[0], node) then Bytes(infos[0]) else 0) + NodeTotal(infos[1..], node)
  }

  /** The regions laid out for one guest NUMA node. */
  function NodeRegions(l: Layout, start: nat, infos: seq<NumaRegionInfo>, node: nat): seq<Region>
    requires Outside(l, start)
    decreases |infos|
  {
    if infos == [] then []
    else
      (if ForNode(infos[0], node) then Place(l, start, Bytes(infos[0])) else []) +
      NodeRegions(l, Next(l, start, Bytes(infos[0])), infos[1..], node)
  }

  lemma {:induction false} NodeRegionsNext(l: Layout, start: nat, infos: seq<NumaRegionInfo>, info: NumaRegionInfo,
                                           n: nat)
    requires l.WellFormed() && Outside(l, start)
    ensures Outside(l, End(l, start, Sizes(infos)))
    ensures NodeRegions(l, start, infos + [info], n) == NodeRegions(l, start, infos, n) +
      if n == info.Node() then Place(l, End(l, start, Sizes(infos)), Bytes(info)) else []
    decreases |infos|
  {
    hide Place, Next, Bytes, Outside, Layout.WellFormed;
    if infos == [] {
      assert infos + [info] == [info] && [info][1..] == [];
    } else {
      assert (infos + [info])[1..] == infos[1..] + [info] && Sizes(infos)[1..] == Sizes(infos[1..]);
      NodeRegionsNext(l, Next(l, start, Bytes(infos[0])), infos[1..], info, n);
    }
  }

  /** They hold exactly the bytes requested for it. */
  lemma {:induction false} NodeTotals(l: Layout, start: nat, infos: seq<NumaRegionInfo>, node: nat)
    requires l.WellFormed() && Outside(l, start)
    ensures Total(NodeRegions(l, start, infos, node)) == NodeTotal(infos, node)
    decreases |infos|
  {
    hide Place, Next, Bytes, ForNode, Layout.WellFormed, Sound, Dense;
    if infos != [] {
      var here, next := Place(l, start, Bytes(infos[0])), Next(l, start, Bytes(infos[0]));
      NodeTotals(l, next, infos[1..], node);
      PlaceIsSound(l, start, Bytes(infos[0]));
      TotalConcat(here, NodeRegions(l, next, infos[1..], node));
      if !ForNode(infos[0], node) {
        assert NodeRegions(l, start, infos, node) == NodeRegions(l, next, infos[1..], node);
      }
    }
  }

  type NumaNodes = map<nat, seq<Region>>

  function Memory(nodes: NumaNodes, node: nat): seq<Region> {
    if node in nodes then nodes[node] else []
  }

  /** `insert_into_numa_nodes`. */
  function AddToNode(nodes: NumaNodes, node: nat, region: Region): NumaNodes {
    nodes[node := Memory(nodes, node) + [region]]
  }

  /** What the address counter of `create_address_space` does with one size; `None` is a checked addition or
      subtraction that fails. */
  function PlaceChecked(l: Layout, start: nat, size: nat): Option<(seq<Region>, nat)> {
    if start > l.mmioLowEnd || WrapAdd(start, size) <= l.mmioLowStart then
      if start + size > U64_MAX then None else Some(([Region(start, size)], start + size))
    else if start > l.mmioLowStart then None
    else
      var room := l.mmioLowStart - start;
      var below := if room < MINIMAL_SPLIT_SPACE then 0 else room;
      if size < below then None
      else
        var above := Region(l.mmioLowEnd + 1, size - below);
        if above.End() > U64_MAX then None
        else Some((if below == 0 then [above] else [Region(start, below), above], above.End()))
  }

  /** The wrapping comparison is harmless: the counter fails exactly when the next address does not fit. */
  lemma CheckedIsPlace(l: Layout, start: nat, size: nat)
    requires l.WellFormed() && Outside(l, start) && start <= U64_MAX && size <= U64_MAX
    ensures PlaceChecked(l, start, size) ==
            if Next(l, start, size) > U64_MAX then None else Some((Place(l, start, size), Next(l, start, size)))
  {
    if start + size <= U64_MAX {
      assert WrapAdd(start, size) == start + size;
    }
  }

  lemma LayoutStarts(l: Layout)
    requires l.WellFormed()
    ensures Outside(l, l.guestMemStart) && l.guestMemStart <= U64_MAX
    ensures Regions(l, l.guestMemStart, []) == [] && End(l, l.guestMemStart, []) == l.guestMemStart
  {
  }

  /** The first loop of `create_address_space`. It fails exactly when the layout runs past the last `u64`
      address; otherwise it yields the layout, and gives each NUMA node the regions that were made for it. */
  method LayOut(l: Layout, infos: seq<NumaRegionInfo>) returns (regions: Option<seq<Region>>, nodes: NumaNodes)
    requires l.WellFormed()
    ensures regions == if End(l, l.guestMemStart, Sizes(infos)) <= U64_MAX
                       then Some(Regions(l, l.guestMemStart, Sizes(infos))) else None
    ensures regions.Some? ==>
      LaidOut(l, l.guestMemStart, Sizes(infos), regions.value, End(l, l.guestMemStart, Sizes(infos)))
    ensures regions.Some? ==> forall n: nat :: Memory(nodes, n) == NodeRegions(l, l.guestMemStart, infos, n)
  {
    hide Place, Next, Layout.WellFormed, Sound, Dense, PlaceChecked, Bytes, Regions, End, Total, Memory, NodeRegions,
      LaidOut, ForNode;
    LayoutStarts(l);
    NoNodes(l);
    var out: seq<Region> := [];
    var start: nat := l.guestMemStart;
    nodes := map[];
    ghost var sizes := Sizes(infos);
    for i := 0 to |infos|
      invariant Outside(l, start) && start <= U64_MAX
      invariant start == End(l, l.guestMemStart, sizes[..i]) && out == Regions(l, l.guestMemStart, sizes[..i])
      invariant forall n: nat :: Memory(nodes, n) == NodeRegions(l, l.guestMemStart, infos[..i], n)
    {
      var size := Bytes(infos[i]);
      CheckedIsPlace(l, start, size);
      LayoutStep(l, l.guestMemStart, sizes[..i], size);
      assert sizes[..i + 1] == sizes[..i] + [size];
      var placed := PlaceChecked(l, start, size);
      if placed.None? {
        EndGrows(l, l.guestMemStart, sizes, i + 1);
        return None, nodes;
      }
      PlaceIsSound(l, start, size);
      ghost var before := nodes;
      nodes := AddPlaced(nodes, infos[i].Node(), placed.value.0);
      assert infos[..i + 1] == infos[..i] + [infos[i]] && Sizes(infos[..i]) == sizes[..i];
      forall n: nat
        ensures Memory(nodes, n) == NodeRegions(l, l.guestMemStart, infos[..i + 1], n)
      {
        NodeRegionsNext(l, l.guestMemStart, infos[..i], infos[i], n);
        assert Memory(before, n) == NodeRegions(l, l.guestMemStart, infos[..i], n);
      }
      out := out + placed.value.0;
      start := placed.value.1;
    }
    assert sizes[..|infos|] == sizes && infos[..|infos|] == infos;
    LayoutIsExact(l, l.guestMemStart, sizes);
    regions := Some(out);
  }

  lemma NoNodes(l: Layout)
    requires l.WellFormed()
    ensures Outside(l, l.guestMemStart) && forall n: nat :: Memory(map[], n) == NodeRegions(l, l.guestMemStart, [], n)
  {
  }

  method AddPlaced(nodes: NumaNodes, node: nat, rs: seq<Region>) returns (r: NumaNodes)
    requires 1 <= |rs| <= 2
    ensures forall n: nat :: Memory(r, n) == Memory(nodes, n) + if n == node then rs else []
  {
    r := AddToNode(nodes, node, rs[0]);
    if |rs| == 2 {
      r := AddToNode(r, node, rs[1]);
    }
    assert rs == if |rs| == 2 then [rs[0]] + [rs[1]] else [rs[0]];
  }

  /** A size keeps all its bytes exactly when it is below 2^44 MiB. */
  predicate Representable(info: NumaRegionInfo) {
    info.sizeMib < 0x1000_0000_0000
  }

  function Requested(infos: seq<NumaRegionInfo>): nat {
    if infos == [] then 0 else infos[0].sizeMib * MIB + Requested(infos[1..])
  }

  /** The shift keeps the lower 44 bits of the size. */
  lemma BytesAre(info: NumaRegionInfo)
    ensures Bytes(info) == info.sizeMib % 0x1000_0000_0000 * 0x10_0000
  {
    var q, r := info.sizeMib / 0x1000_0000_0000, info.sizeMib % 0x1000_0000_0000;
    assert info.sizeMib * MIB == q * (U64_MAX + 1) + r * MIB;
    DivModUnique(info.sizeMib * MIB, U64_MAX + 1, q, r * MIB);
  }

  lemma BytesOf(info: NumaRegionInfo)
    ensures Bytes(info) <= info.sizeMib * MIB
    ensures Bytes(info) == info.sizeMib * MIB <==> Representable(info)
  {
    var x, m := info.sizeMib * MIB, U64_MAX + 1;
    if Representable(info) {
      assert x < m;
      DivModUnique(x, m, 0, x);
    } else {
      assert x >= m > x % m;
    }
  }

  /** The layout holds all the memory that was asked for exactly when no size lost bits in the shift. */
  lemma {:induction false} AllBytesLaidOut(l: Layout, infos: seq<NumaRegionInfo>)
    requires l.WellFormed()
    ensures var laid := Total(Regions(l, l.guestMemStart, Sizes(infos)));
            && laid <= Requested(infos)
            && (laid == Requested(infos) <==> forall i :: 0 <= i < |infos| ==> Representable(infos[i]))
  {
    LayoutIsSound(l, l.guestMemStart, Sizes(infos));
    SumOfBytes(infos);
  }

  /** A size of 2^44 MiB is laid out as nothing at all. */
  lemma LostSize(l: Layout)
    requires l.WellFormed()
    ensures var infos := [NumaRegionInfo(0x1000_0000_0000, None)];
            Requested(infos) == 0x1_0000_0000_0000_0000 && Total(Regions(l, l.guestMemStart, Sizes(infos))) == 0
  {
    var info := NumaRegionInfo(0x1000_0000_0000, None);
    assert Bytes(info) == 0;
    var sizes := Sizes([info]);
    assert sizes == [0] && Sum(sizes[1..]) == 0;
    LayoutIsSound(l, l.guestMemStart, sizes);
  }

  lemma {:induction false} SumOfBytes(infos: seq<NumaRegionInfo>)
    ensures Sum(Sizes(infos)) <= Requested(infos)
    ensures Sum(Sizes(infos)) == Requested(infos) <==> forall i :: 0 <= i < |infos| ==> Representable(infos[i])
    decreases |infos|
  {
    if infos != [] {
      BytesOf(infos[0]);
      SumOfBytes(infos[1..]);
      assert Sizes(infos)[1..] == Sizes(infos[1..]);
      assert forall i :: 0 <= i < |infos| - 1 ==> infos[1..][i] == infos[i + 1];
    }
  }
}

/** Claiming the laid-out memory: the static reservations of `create_address_space`. */
module AddressSpaces {
  import opened Wrappers
  import opened Ranges
  import opened IntervalNodes
  import opened IntervalTrees
  import opened Layouts
  import opened Leases
  import opened ResourceManagers
  import opened MemoryLayouts

  /** The constraint that pins a region to its own addresses. */
  function Pinned(reg: Region): Constraint {
    Constraint(reg.size, reg.start, (reg.start + reg.size + U64_MAX) % (U64_MAX + 1), 1)
  }

  /** A pinned region is granted, and then at its own start, exactly when it is not empty and all of it is free. */
  lemma PinnedGrant<T>(m: Contents<T>, reg: Region)
    requires Pool(m) && 0 < reg.End() <= U64_MAX + 1
    ensures (exists g :: Admissible(m, Pinned(reg), g)) <==>
        reg.size > 0 && forall x :: reg.start <= x < reg.End() ==> FreeAt(m, x)
    ensures forall g :: Admissible(m, Pinned(reg), g) ==> g == Range(reg.start, reg.End() - 1)
  {
    var c := Pinned(reg);
    if reg.size > 0 {
      DivModUnique(reg.End() + U64_MAX, U64_MAX + 1, 1, reg.End() - 1);
      var r := Range(reg.start, reg.End() - 1);
      forall g | Admissible(m, c, g)
        ensures g == r && forall x :: reg.start <= x < reg.End() ==> FreeAt(m, x)
      {
        var k :| k in m && m[k].Free? && k.Contains(g);
        assert forall x :: reg.start <= x < reg.End() ==> k.Has(x);
      }
      if forall x :: reg.start <= x < reg.End() ==> FreeAt(m, x) {
        ContiguousFree(m, r);
        assert Admissible(m, c, r);
      }
    }
  }

  /** The memory pool after some regions were claimed from a fresh one, and the slot pool after `n` slots were. */
  ghost predicate MemAfter(l: Layout, m: Contents<()>, rs: seq<Region>) {
    forall x :: FreeAt(m, x) <==>
      && l.guestMemStart <= x <= l.guestMemEnd
      && (l.mmioLowStart <= x <= l.mmioLowEnd ==> l.HoleAvoided()) && !InSome(rs, x)
  }

  ghost predicate SlotsAfter(m: Contents<()>, n: nat, maxSlots: nat) {
    forall x :: FreeAt(m, x) <==> n <= x <= maxSlots
  }

  lemma FreshPools(l: Layout, maxSlots: nat)
    requires l.WellFormed()
    ensures MemAfter(l, FreshMem(l), []) && SlotsAfter(OneRange(0, maxSlots), 0, maxSlots)
  {
    hide FreeAt, FreshMem, OneRange, Layout.WellFormed;
    forall x
      ensures FreeAt(FreshMem(l), x) <==> FreeAtFirst(l, maxSlots, MemPool, x)
      ensures FreeAt(OneRange(0, maxSlots), x) <==> 0 <= x <= maxSlots
    {
      FreshMemFree(l, x);
      OneRangeFree(0, maxSlots, x);
    }
  }

  datatype AddressError = InvalidOperation | NoAvailableMemAddress | NoAvailableKvmSlot

  /** What a fresh manager can hold: nonempty regions that end inside guest memory, and a slot for each. */
  predicate Fits(l: Layout, maxSlots: nat, rs: seq<Region>) {
    |rs| <= maxSlots + 1 && FitsUpTo(l, rs, |rs|)
  }

  /** A region lies in guest memory and is not empty. */
  predicate FitsMem(l: Layout, reg: Region) {
    reg.size > 0 && reg.End() <= l.guestMemEnd + 1
  }

  /** The first region that cannot be claimed, and which of the two it lacks. */
  predicate FirstMisfit(l: Layout, maxSlots: nat, rs: seq<Region>, i: nat, e: AddressError) {
    && i < |rs| && i <= maxSlots + 1 && FitsUpTo(l, rs, i)
    && e == (if FitsMem(l, rs[i]) then NoAvailableKvmSlot else NoAvailableMemAddress)
    && (FitsMem(l, rs[i]) ==> i > maxSlots)
  }

  predicate FitsUpTo(l: Layout, rs: seq<Region>, n: nat)
    requires n <= |rs|
  {
    forall i :: 0 <= i < n ==> FitsMem(l, rs[i])
  }

  lemma ClaimRegion(l: Layout, mem: Contents<()>, mem': Contents<()>, rs: seq<Region>, i: nat, g: Range)
    requires i < |rs| && MemAfter(l, mem, rs[..i]) && rs[i].size > 0 && g == Range(rs[i].start, rs[i].End() - 1)
    requires forall x :: FreeAt(mem', x) <==> FreeAt(mem, x) && !g.Has(x)
    ensures MemAfter(l, mem', rs[..i + 1])
  {
    forall x
      ensures InSome(rs[..i + 1], x) <==> InSome(rs[..i], x) || g.Has(x)
    {
      assert forall j :: 0 <= j < i ==> rs[..i + 1][j] == rs[..i][j];
      assert rs[..i + 1][i] == rs[i];
    }
  }

  /** A sound region is still wholly free exactly when it ends inside guest memory. */
  lemma RegionFree(l: Layout, mem: Contents<()>, rs: seq<Region>, i: nat, hi: nat)
    requires l.WellFormed() && i < |rs| && Sound(l, rs, l.guestMemStart, hi) && MemAfter(l, mem, rs[..i]) &&
        rs[i].size > 0
    ensures (forall x :: rs[i].start <= x < rs[i].End() ==> FreeAt(mem, x)) <==> rs[i].End() <= l.guestMemEnd + 1
  {
    assert forall j :: 0 <= j < i ==> rs[..i][j] == rs[j];
    if rs[i].End() > l.guestMemEnd + 1 {
      var last := rs[i].End() - 1;
      assert rs[i].start <= last && !FreeAt(mem, last);
    }
  }

  lemma ClaimSlot(m: Contents<()>, m': Contents<()>, n: nat, maxSlots: nat, g: Option<Range>)
    requires SlotsAfter(m, n, maxSlots) && Pool(m) && maxSlots <= U32_MAX && Taken(m, AnyOf(1), Valued(()), g, m')
    ensures g.Some? <==> n <= maxSlots
    ensures g.Some? ==> g.value == Range(n, n) && SlotsAfter(m', n + 1, maxSlots)
  {
    hide Pool, Admissible, SlotsAfter;
    if n <= maxSlots {
      SlotAdmissible(m, n, maxSlots);
    }
    if g.Some? {
      AdmittedIsFree(m, g.value);
      SlotTaken(m, m', n, maxSlots, g.value);
    }
  }

  lemma AdmittedIsFree(m: Contents<()>, g: Range)
    requires Admissible(m, AnyOf(1), g)
    ensures FreeAt(m, g.min) && g.min == g.max
  {
    var k :| k in m && m[k].Free? && k.Contains(g);
    assert k.Has(g.min);
  }

  lemma SlotTaken(m: Contents<()>, m': Contents<()>, n: nat, maxSlots: nat, g: Range)
    requires SlotsAfter(m, n, maxSlots) && FreeAt(m, g.min) && g.min == g.max && (n <= maxSlots ==> g.min <= n)
    requires forall x :: FreeAt(m', x) <==> FreeAt(m, x) && !g.Has(x)
    ensures n <= maxSlots && g == Range(n, n) && SlotsAfter(m', n + 1, maxSlots)
  {
  }

  lemma SlotAdmissible(m: Contents<()>, n: nat, maxSlots: nat)
    requires SlotsAfter(m, n, maxSlots) && Pool(m) && maxSlots <= U32_MAX && n <= maxSlots
    ensures Admissible(m, AnyOf(1), Range(n, n))
  {
    var here := Range(n, n);
    assert FreeAt(m, n);
    assert forall x :: here.Has(x) ==> x == n;
    ContiguousFree(m, here);
  }

  /** The reservation loop on a fresh manager: it succeeds exactly when the regions fit, grants each one at its
      own start, and gives the region with index `i` the KVM slot `i`. */
  method ReserveRegions(mgr: ResourceManager, regions: seq<Region>, ghost hi: nat)
    returns (r: Result<map<nat, nat>, AddressError>)
    requires mgr.Valid() && mgr.view[MemPool] == FreshMem(mgr.layout) &&
        mgr.view[KvmSlotPool] == OneRange(0, mgr.maxSlots)
    requires Sound(mgr.layout, regions, mgr.layout.guestMemStart, hi) && hi <= U64_MAX
    modifies mgr`view, mgr.Trees()
    ensures r.Ok? <==> Fits(mgr.layout, mgr.maxSlots, regions)
    ensures r.Ok? ==> mgr.Valid() && MemAfter(mgr.layout, mgr.view[MemPool], regions)
    ensures r.Ok? ==> SlotsAfter(mgr.view[KvmSlotPool], |regions|, mgr.maxSlots)
    ensures r.Ok? ==> Mapped(regions, |regions|, r.value)
    ensures r.Err? ==> exists i: nat :: FirstMisfit(mgr.layout, mgr.maxSlots, regions, i, r.error)
  {
    hide MemAfter, SlotsAfter, ResourceManager.Valid, FreshMem, OneRange, Mapped, Sound;
    var baseToSlot: map<nat, nat> := map[];
    mgr.ValidParts();
    FreshPools(mgr.layout, mgr.maxSlots);
    assert regions[..0] == [] && regions[..|regions|] == regions;
    MappedNone(regions);
    for i := 0 to |regions|
      invariant mgr.Valid() && MemPool in mgr.view && KvmSlotPool in mgr.view
      invariant MemAfter(mgr.layout, mgr.view[MemPool], regions[..i]) &&
          SlotsAfter(mgr.view[KvmSlotPool], i, mgr.maxSlots)
      invariant Mapped(regions, i, baseToSlot)
      invariant i <= mgr.maxSlots + 1 && FitsUpTo(mgr.layout, regions, i)
    {
      var slot := ReserveOne(mgr, regions, i, hi);
      if slot.Err? {
        assert FirstMisfit(mgr.layout, mgr.maxSlots, regions, i, slot.error);
        return Err(slot.error);
      }
      MappedNext(mgr.layout, regions, i, baseToSlot, mgr.layout.guestMemStart, hi);
      baseToSlot := baseToSlot[regions[i].start := slot.value];
    }
    r := Ok(baseToSlot);
  }

  lemma MappedNone(rs: seq<Region>)
    ensures Mapped(rs, 0, map[])
  {
  }

  lemma MappedNext(l: Layout, rs: seq<Region>, i: nat, slot: map<nat, nat>, lo: nat, hi: nat)
    requires i < |rs| && Sound(l, rs, lo, hi) && Mapped(rs, i, slot) && forall j :: 0 <= j < i ==> rs[j].size > 0
    ensures Mapped(rs, i + 1, slot[rs[i].start := i])
  {
    assert forall j :: 0 <= j < i ==> rs[j].start < rs[j].End() <= rs[i].start;
  }

  /** `map_to_kvm` has recorded the first `i` regions, each under its own base. */
  ghost predicate Mapped(rs: seq<Region>, i: nat, slot: map<nat, nat>)
    requires i <= |rs|
  {
    && (forall j :: 0 <= j < i ==> rs[j].start in slot && slot[rs[j].start] == j)
    && (forall b :: b in slot ==> exists j :: 0 <= j < i && b == rs[j].start)
  }

  /** One turn of the loop: the pinned allocation, then a KVM slot. */
  method ReserveOne(mgr: ResourceManager, regions: seq<Region>, i: nat, ghost hi: nat)
    returns (slot: Result<nat, AddressError>)
    requires mgr.Valid() && MemPool in mgr.view && KvmSlotPool in mgr.view && i < |regions|
    requires MemAfter(mgr.layout, mgr.view[MemPool], regions[..i]) && SlotsAfter(mgr.view[KvmSlotPool], i, mgr.maxSlots)
    requires Sound(mgr.layout, regions, mgr.layout.guestMemStart, hi) && hi <= U64_MAX
    modifies mgr`view, mgr.Trees()
    ensures slot == Err(NoAvailableMemAddress) <==> !FitsMem(mgr.layout, regions[i])
    ensures slot == Err(NoAvailableKvmSlot) <==> FitsMem(mgr.layout, regions[i]) && i > mgr.maxSlots
    ensures slot.Err? ==> slot.error in {NoAvailableMemAddress, NoAvailableKvmSlot}
    ensures slot.Ok? ==>
              && slot.value == i && mgr.Valid() && MemPool in mgr.view && KvmSlotPool in mgr.view
              && MemAfter(mgr.layout, mgr.view[MemPool], regions[..i + 1]) &&
                  SlotsAfter(mgr.view[KvmSlotPool], i + 1, mgr.maxSlots)
  {
    hide MemAfter, SlotsAfter, Sound, Taken, Pool, Pinned, AnyOf, InBounds, Entries;
    ghost var before := mgr.view;
    PinnedIff(mgr, regions, i, hi);
    var key := mgr.Take(MemPool, Pinned(regions[i]), Allocated);
    ClaimMem(mgr.layout, before[MemPool], mgr.view[MemPool], regions, i, hi, key);
    if key.None? {
      return Err(NoAvailableMemAddress);
    }
    AnySlotIsWord();
    var g := mgr.Take(KvmSlotPool, AnyOf(1), Valued(()));
    ClaimSlot(before[KvmSlotPool], mgr.view[KvmSlotPool], i, mgr.maxSlots, g);
    if g.None? {
      return Err(NoAvailableKvmSlot);
    }
    slot := Ok(g.value.min);
  }

  lemma AnySlotIsWord()
    ensures WordSized(AnyOf(1))
  {
  }

  lemma ClaimMem(l: Layout, m: Contents<()>, m': Contents<()>, rs: seq<Region>, i: nat, hi: nat, g: Option<Range>)
    requires l.WellFormed() && Pool(m) && i < |rs| && MemAfter(l, m, rs[..i]) && Sound(l, rs, l.guestMemStart, hi) &&
        hi <= U64_MAX
    requires Taken(m, Pinned(rs[i]), Allocated, g, m')
    ensures g.Some? <==> rs[i].size > 0 && rs[i].End() <= l.guestMemEnd + 1
    ensures g.Some? ==> MemAfter(l, m', rs[..i + 1])
  {
    hide MemAfter, Sound, Pool, FirstFit, Pinned;
    PinnedOnly(l, m, rs, i, hi);
    if g.Some? {
      FitIsAdmissible(m, Pinned(rs[i]), g.value);
      ClaimRegion(l, m, m', rs, i, g.value);
    }
  }

  lemma FitIsAdmissible(m: Contents<()>, c: Constraint, g: Range)
    requires FirstFit(m, c, g)
    ensures Admissible(m, c, g)
  {
  }

  lemma PinnedOnly(l: Layout, m: Contents<()>, rs: seq<Region>, i: nat, hi: nat)
    requires l.WellFormed() && Pool(m) && i < |rs| && MemAfter(l, m, rs[..i])
    requires Sound(l, rs, l.guestMemStart, hi) && hi <= U64_MAX
    ensures (exists g :: Admissible(m, Pinned(rs[i]), g)) <==> rs[i].size > 0 && rs[i].End() <= l.guestMemEnd + 1
    ensures forall g :: Admissible(m, Pinned(rs[i]), g) ==> g == Range(rs[i].start, rs[i].End() - 1)
  {
    if rs[i].size > 0 {
      PinnedGrant(m, rs[i]);
      RegionFree(l, m, rs, i, hi);
    }
  }

  lemma PinnedIff(mgr: ResourceManager, rs: seq<Region>, i: nat, hi: nat)
    requires i < |rs| && Sound(mgr.layout, rs, mgr.layout.guestMemStart, hi) && hi <= U64_MAX
    ensures WordSized(Pinned(rs[i]))
  {
  }

  lemma {:induction false} LastEnd(l: Layout, start: nat, sizes: seq<nat>)
    requires l.WellFormed() && Outside(l, start) && sizes != []
    ensures var rs := Regions(l, start, sizes); rs != [] && rs[|rs| - 1].End() == End(l, start, sizes)
    decreases |sizes|
  {
    var rest := sizes[1..];
    if rest != [] {
      LastEnd(l, Next(l, start, sizes[0]), rest);
    }
  }

  predicate Creatable(l: Layout, maxSlots: nat, sizes: seq<nat>)
    requires l.WellFormed()
  {
    && (forall i :: 0 <= i < |sizes| ==> sizes[i] > 0)
    && End(l, l.guestMemStart, sizes) <= l.guestMemEnd + 1
    && |Regions(l, l.guestMemStart, sizes)| <= maxSlots + 1
  }

  /** A layout fits a fresh manager exactly when no size is zero, it ends inside guest memory and the slots suffice. */
  lemma LayoutFits(l: Layout, maxSlots: nat, sizes: seq<nat>)
    requires l.WellFormed()
    ensures Fits(l, maxSlots, Regions(l, l.guestMemStart, sizes)) <==> Creatable(l, maxSlots, sizes)
    ensures Creatable(l, maxSlots, sizes) ==> End(l, l.guestMemStart, sizes) <= U64_MAX
    ensures Sound(l, Regions(l, l.guestMemStart, sizes), l.guestMemStart, End(l, l.guestMemStart, sizes))
  {
    var rs := Regions(l, l.guestMemStart, sizes);
    LayoutIsSound(l, l.guestMemStart, sizes);
    if sizes != [] {
      LastEnd(l, l.guestMemStart, sizes);
      assert rs[|rs| - 1].End() == End(l, l.guestMemStart, sizes);
    }
  }

  /** `create_address_space` on a fresh manager: the layout is made and claimed exactly when it can be, and no
      reservation fails for any other reason. */
  method CreateAddressSpace(mgr: ResourceManager, infos: seq<NumaRegionInfo>)
    returns (r: Result<seq<Region>, AddressError>, baseToSlot: map<nat, nat>, nodes: NumaNodes)
    requires mgr.Valid() && mgr.view[MemPool] == FreshMem(mgr.layout) &&
        mgr.view[KvmSlotPool] == OneRange(0, mgr.maxSlots)
    modifies mgr`view, mgr.Trees()
    ensures r.Ok? <==> Creatable(mgr.layout, mgr.maxSlots, Sizes(infos))
    ensures r == Err(InvalidOperation) <==> End(mgr.layout, mgr.layout.guestMemStart, Sizes(infos)) > U64_MAX
    ensures r.Err? && r.error != InvalidOperation ==>
      exists i: nat :: FirstMisfit(mgr.layout, mgr.maxSlots,
          Regions(mgr.layout, mgr.layout.guestMemStart, Sizes(infos)), i, r.error)
    ensures r.Ok? ==> r.value == Regions(mgr.layout, mgr.layout.guestMemStart, Sizes(infos))
    ensures r.Ok? ==> Mapped(r.value, |r.value|, baseToSlot)
    ensures r.Ok? ==> mgr.Valid() && MemAfter(mgr.layout, mgr.view[MemPool], r.value)
    ensures r.Ok? ==> SlotsAfter(mgr.view[KvmSlotPool], |r.value|, mgr.maxSlots)
    ensures r.Ok? ==> LaidOut(mgr.layout, mgr.layout.guestMemStart, Sizes(infos), r.value,
      End(mgr.layout, mgr.layout.guestMemStart, Sizes(infos)))
    ensures r.Ok? ==> forall n: nat :: Memory(nodes, n) == NodeRegions(mgr.layout, mgr.layout.guestMemStart, infos, n)
  {
    hide Sizes, Memory, Layout.WellFormed, NodeRegions, LaidOut;
    hide Sound, Dense, Regions, End, Fits, Mapped, Creatable, ResourceManager.Valid, Total, Sum, NodeTotal, Bytes,
      FreshMem, OneRange, MemAfter, SlotsAfter;
    mgr.ValidParts();
    ghost var l, sizes := mgr.layout, Sizes(infos);
    baseToSlot := map[];
    var regions;
    regions, nodes := LayOut(mgr.layout, infos);
    LayoutFits(l, mgr.maxSlots, sizes);
    if regions.None? {
      return Err(InvalidOperation), baseToSlot, nodes;
    }
    var slots := ReserveRegions(mgr, regions.value, End(l, l.guestMemStart, sizes));
    r := if slots.Ok? then Ok(regions.value) else Err(slots.error);
    baseToSlot := if slots.Ok? then slots.value else map[];
  }

  const MAX_PRE_ALLOC_THREAD: nat := 16
  const PAGE_SIZE: nat := 4096

  /** Consecutive page ranges from page `0` up to page `npage`. */
  predicate Tiles(ranges: seq<(nat, nat)>, npage: nat) {
    && |ranges| > 0 && ranges[0].0 == 0 && ranges[|ranges| - 1].1 == npage
    && (forall i :: 0 <= i < |ranges| ==> ranges[i].0 <= ranges[i].1)
    && (forall i :: 0 <= i < |ranges| - 1 ==> ranges[i].1 == ranges[i + 1].0)
  }

  /** The page ranges of the pre-allocation threads: one thread for each 4 GiB begun, up to a limit, and the same number
      of pages for each but the last, which takes what is left. */
  method PreallocRanges(size: nat) returns (ranges: seq<(nat, nat)>)
    ensures |ranges| == Min(MAX_PRE_ALLOC_THREAD, size / 0x1_0000_0000 + 1) && Tiles(ranges, size / PAGE_SIZE)
    ensures forall i :: 0 <= i < |ranges| - 1 ==> ranges[i].1 - ranges[i].0 == size / PAGE_SIZE / |ranges|
  {
    var npage := size / PAGE_SIZE;
    var touchThread := size / 0x1_0000_0000 + 1;
    if touchThread > MAX_PRE_ALLOC_THREAD {
      touchThread := MAX_PRE_ALLOC_THREAD;
    }
    var perNpage := npage / touchThread;
    DivBelow(npage, touchThread);
    ranges := SplitPages(npage, touchThread, perNpage);
  }

  /** The loop over the threads. */
  method SplitPages(npage: nat, touchThread: nat, perNpage: nat) returns (ranges: seq<(nat, nat)>)
    requires touchThread > 0 && StartPage(perNpage, touchThread) <= npage
    ensures |ranges| == touchThread && Tiles(ranges, npage)
    ensures forall i :: 0 <= i < touchThread - 1 ==> ranges[i].1 - ranges[i].0 == perNpage
  {
    hide StartPage;
    ranges := [];
    StartPages(npage, touchThread, perNpage, 0);
    for n := 0 to touchThread
      invariant |ranges| == n
      invariant n < touchThread ==> StartPage(perNpage, n) == if n == 0 then 0 else ranges[n - 1].1
      invariant n == touchThread ==> ranges[n - 1].1 == npage
      invariant n > 0 ==> ranges[0].0 == 0
      invariant forall i :: 0 <= i < n ==> ranges[i].0 <= ranges[i].1
      invariant forall i :: 0 <= i < n - 1 ==> ranges[i].1 == ranges[i + 1].0
      invariant forall i :: 0 <= i < n && i < touchThread - 1 ==> ranges[i].1 - ranges[i].0 == perNpage
    {
      StartPages(npage, touchThread, perNpage, n);
      var startNpage := StartPage(perNpage, n);
      var endNpage := if n == touchThread - 1 then npage else StartPage(perNpage, n + 1);
      ranges := ranges + [(startNpage, endNpage)];
    }
  }

  function StartPage(perNpage: nat, n: nat): nat {
    perNpage * n
  }

  lemma StartPages(npage: nat, threads: nat, per: nat, n: nat)
    requires n < threads && StartPage(per, threads) <= npage
    ensures StartPage(per, 0) == 0 && StartPage(per, n + 1) == StartPage(per, n) + per <= npage
  {
    MulGrows(per, n + 1, threads);
  }

  lemma MulGrows(c: nat, a: nat, b: nat)
    requires a <= b
    ensures c * a <= c * b
  {
    assert c * b == c * a + c * (b - a);
  }

  lemma DivBelow(x: nat, d: nat)
    requires d > 0
    ensures (x / d) * d <= x
  {
  }

  /** Every page is touched by exactly one thread. */
  lemma {:induction false} EveryPageOnce(ranges: seq<(nat, nat)>, npage: nat, page: nat)
    requires Tiles(ranges, npage) && page < npage
    ensures exists i :: 0 <= i < |ranges| && ranges[i].0 <= page < ranges[i].1
    ensures forall i, j :: 0 <= i < j < |ranges| ==>
        !(ranges[i].0 <= page < ranges[i].1 && ranges[j].0 <= page < ranges[j].1)
  {
    var i := 0;
    while ranges[i].1 <= page
      invariant 0 <= i < |ranges| && ranges[i].0 <= page
      decreases |ranges| - i
    {
      i := i + 1;
    }
    forall i, j | 0 <= i < j < |ranges|
      ensures ranges[i].1 <= ranges[j].0
    {
      RangesAscend(ranges, npage, i, j);
    }
  }

  lemma {:induction false} RangesAscend(ranges: seq<(nat, nat)>, npage: nat, i: nat, j: nat)
    requires Tiles(ranges, npage) && i < j < |ranges|
    ensures ranges[i].1 <= ranges[j].0
    decreases j - i
  {
    if i + 1 < j {
      RangesAscend(ranges, npage, i + 1, j);
    }
  }
}
