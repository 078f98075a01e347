/** Reference-counted storage of the sandbox, and the mounts its containers hold. */
module SandboxStorage {
  import opened Wrappers

  const U32_MAX := 0xffff_ffff

  /** A storage device: the path it reports, and whether its cleanup succeeds. */
  datatype Device = Device(path: Option<string>, cleans: bool)

  const GENERIC := Device(None, true)

  datatype Entry = Entry(count: nat, device: Device)

  /** `cleaned` lists the paths whose device was cleaned up, oldest first. */
  datatype State = State(storages: map<string, Entry>, mounts: map<string, seq<string>>, cleaned: seq<string>)

  datatype Fault = NotFound | CleanupFailed | NoHandler | NotCreated

  function Count(s: State, p: string): nat {
    if p in s.storages then s.storages[p].count else 0
  }

  ghost predicate Valid(s: State) {
    forall p <- s.storages :: 0 < s.storages[p].count <= U32_MAX
  }

  /** `fetch_add` and `fetch_sub` wrap. */
  function Inc(n: nat): nat {
    (n + 1) % (U32_MAX + 1)
  }

  function Dec(n: nat): nat {
    (n + U32_MAX) % (U32_MAX + 1)
  }

  function Added(s: State, p: string): State {
    if p in s.storages then
      s.(storages := s.storages[p := s.storages[p].(count := Inc(s.storages[p].count))])
    else s.(storages := s.storages[p := Entry(1, GENERIC)])
  }

  /** Put a device in place of the one on record, with a count of its own. */
  function Updated(s: State, p: string, d: Device): State {
    if p in s.storages then s.(storages := s.storages[p := Entry(1, d)]) else s
  }

  function Removed(s: State, p: string): State {
    if p !in s.storages then s
    else if s.storages[p].count == 1 then s.(storages := s.storages - {p}, cleaned := s.cleaned + [p])
    else s.(storages := s.storages[p := s.storages[p].(count := Dec(s.storages[p].count))])
  }

  function Present(s: State, ms: seq<string>): seq<string> {
    if ms == [] then []
    else Present(s, ms[..|ms| - 1]) + if ms[|ms| - 1] in s.storages then [ms[|ms| - 1]] else []
  }

  /** Remove a list of paths, the last first. */
  function RemovedBackwards(s: State, ms: seq<string>): State
    decreases |ms|
  {
    if ms == [] then s else RemovedBackwards(Removed(s, ms[|ms| - 1]), ms[..|ms| - 1])
  }

  function ContainerRemoved(s: State, cid: string): State {
    var ms := if cid in s.mounts then Present(s, s.mounts[cid]) else [];
    var r := RemovedBackwards(s, ms);
    r.(mounts := r.mounts - {cid})
  }

  /** An add counts one more reference, unless the counter is full. */
  lemma AddConserves(s: State, p: string, q: string)
    requires Valid(s)
    ensures Count(Added(s, p), q) == Count(s, q) + (if p == q then 1 else 0) <==> p != q || Count(s, p) < U32_MAX
    ensures Count(s, p) < U32_MAX ==> Valid(Added(s, p))
  {
  }

  /** A device update keeps the references, unless more than the first were taken. */
  lemma UpdateConserves(s: State, p: string, d: Device, q: string)
    requires Valid(s)
    ensures Valid(Updated(s, p, d))
    ensures Count(Updated(s, p, d), q) == Count(s, q) <==> p != q || Count(s, p) <= 1
  {
  }

  /** Removing gives one reference back; the last one also cleans the device up and drops the entry. */
  lemma RemoveConserves(s: State, p: string, q: string)
    requires Valid(s)
    ensures Valid(Removed(s, p))
    ensures Count(Removed(s, p), q) == (if p == q && Count(s, p) > 0 then Count(s, p) - 1 else Count(s, q))
    ensures (q in s.storages) == (q in Removed(s, p).storages) ||
        (q == p && Count(s, p) == 1 && Removed(s, p).cleaned == s.cleaned + [p])
  {
    if p in s.storages && s.storages[p].count > 1 {
      var c := s.storages[p].count;
      assert Dec(c) == c - 1 by {
        assert c + U32_MAX == (c - 1) + (U32_MAX + 1);
      }
    }
  }

  /** Each step is about one path, and a device stays with its path until another is put in its place. */
  lemma OnePathOnly(s: State, p: string, d: Device)
    ensures var a, u, r := Added(s, p), Updated(s, p, d), Removed(s, p);
            && a.storages - {p} == u.storages - {p} == r.storages - {p} == s.storages - {p}
            && a.mounts == u.mounts == r.mounts == s.mounts && a.cleaned == u.cleaned == s.cleaned
            && (p in s.storages ==> a.storages[p].device == s.storages[p].device && u.storages[p].device == d)
            && (p in s.storages && p in r.storages ==> r.storages[p].device == s.storages[p].device)
  {
  }

  /** A full counter starts again at zero, and one below zero is full. */
  lemma CounterWraps(s: State, p: string)
    requires p in s.storages
    ensures Count(s, p) == U32_MAX ==> Count(Added(s, p), p) == 0
    ensures Count(s, p) == 0 ==> Count(Removed(s, p), p) == U32_MAX
  {
  }

  /** What was cleaned up on the way is in the list, what is later there first. */
  ghost predicate LastFirst(ms: seq<string>, cleaned: seq<string>, at: seq<nat>) {
    && |at| == |cleaned| && (forall k :: 0 <= k < |at| ==> at[k] < |ms| && cleaned[k] == ms[at[k]])
    && (forall k, l :: 0 <= k < l < |at| ==> at[k] > at[l])
  }

  /** A path is cleaned up just when its last reference goes, and whatever is mounted later is so before what is mounted
      earlier. */
  lemma {:induction false} BackwardsCleans(s: State, ms: seq<string>) returns (more: seq<string>, at: seq<nat>)
    requires Valid(s)
    ensures RemovedBackwards(s, ms).cleaned == s.cleaned + more && LastFirst(ms, more, at)
    ensures forall q :: q in more <==> 0 < Count(s, q) <= multiset(ms)[q]
    decreases |ms|
  {
    hide Removed, Count, Valid;
    if ms == [] {
      more, at := [], [];
    } else {
      var n := |ms| - 1;
      var p, r := ms[n], Removed(s, ms[n]);
      assert ms == ms[..n] + [p];
      RemoveConserves(s, p, p);
      var rest, places := BackwardsCleans(r, ms[..n]);
      if Count(s, p) == 1 {
        more, at := [p] + rest, [n] + places;
      } else {
        more, at := rest, places;
      }
      forall q
        ensures q in more <==> 0 < Count(s, q) <= multiset(ms)[q]
      {
        RemoveConserves(s, p, q);
      }
      CleansOne(s, p);
    }
  }

  lemma CleansOne(s: State, p: string)
    ensures Removed(s, p).cleaned == s.cleaned + if Count(s, p) == 1 then [p] else []
  {
  }

  /** Leaving out the paths that have no entry makes no difference. */
  lemma {:induction false} PresentIsEnough(s: State, t: State, ms: seq<string>)
    requires t.storages.Keys <= s.storages.Keys
    ensures RemovedBackwards(t, Present(s, ms)) == RemovedBackwards(t, ms)
    decreases |ms|
  {
    if ms != [] {
      var n := |ms| - 1;
      PresentIsEnough(s, Removed(t, ms[n]), ms[..n]);
      if ms[n] in s.storages {
        assert Present(s, ms)[..|Present(s, ms)| - 1] == Present(s, ms[..n]);
      } else {
        assert Present(s, ms) == Present(s, ms[..n]);
      }
    }
  }

  /** A container's mounts go in reverse order of its record. */
  lemma ContainerCleans(s: State, cid: string) returns (more: seq<string>, at: seq<nat>)
    requires Valid(s)
    ensures ContainerRemoved(s, cid).cleaned == s.cleaned + more && LastFirst(Mounts(s, cid), more, at)
    ensures forall q :: q in more <==> 0 < Count(s, q) <= multiset(Mounts(s, cid))[q]
  {
    PresentIsEnough(s, s, Mounts(s, cid));
    more, at := BackwardsCleans(s, Mounts(s, cid));
  }

  function Less(n: nat, k: nat): nat {
    if n < k then 0 else n - k
  }

  /** However often a path is in the list, that many references go, as far as there are any. */
  lemma {:induction false} BackwardsTakes(s: State, ms: seq<string>, q: string)
    requires Valid(s)
    ensures Valid(RemovedBackwards(s, ms)) && RemovedBackwards(s, ms).mounts == s.mounts
    ensures Count(RemovedBackwards(s, ms), q) == Less(Count(s, q), multiset(ms)[q])
    decreases |ms|
  {
    if ms != [] {
      var n := |ms| - 1;
      assert ms == ms[..n] + [ms[n]];
      RemoveConserves(s, ms[n], q);
      BackwardsTakes(Removed(s, ms[n]), ms[..n], q);
    }
  }

  lemma {:induction false} PresentTakes(s: State, ms: seq<string>, q: string)
    ensures multiset(Present(s, ms))[q] == if q in s.storages then multiset(ms)[q] else 0
  {
    if ms != [] {
      var n := |ms| - 1;
      assert ms == ms[..n] + [ms[n]];
      PresentTakes(s, ms[..n], q);
    }
  }

  function Mounts(s: State, cid: string): seq<string> {
    if cid in s.mounts then s.mounts[cid] else []
  }

  /** Removing a container gives back one reference for each mount on its record. */
  lemma ContainerTakes(s: State, cid: string, q: string)
    requires Valid(s)
    ensures Valid(ContainerRemoved(s, cid)) && ContainerRemoved(s, cid).mounts == s.mounts - {cid}
    ensures Count(ContainerRemoved(s, cid), q) == Less(Count(s, q), multiset(Mounts(s, cid))[q])
  {
    BackwardsTakes(s, Present(s, Mounts(s, cid)), q);
    PresentTakes(s, Mounts(s, cid), q);
  }

  datatype Step =
    | Add(path: string)
    | Update(path: string, device: Device)
    | Remove(path: string)
    | Record(cid: string, mounts: seq<string>)
    | RemoveContainer(cid: string)

  function Next(s: State, step: Step): State {
    match step
    case Add(p) => Added(s, p)
    case Update(p, d) => Updated(s, p, d)
    case Remove(p) => Removed(s, p)
    case Record(cid, ms) => s.(mounts := s.mounts[cid := ms])
    case RemoveContainer(cid) => ContainerRemoved(s, cid)
  }

  function After(s: State, steps: seq<Step>): State
    decreases |steps|
  {
    if steps == [] then s else After(Next(s, steps[0]), steps[1..])
  }

  /** Steps that lose no reference: the counter has room, and a device is put in place by its first user. */
  predicate Guarded(s: State, step: Step) {
    match step
    case Add(p) => Count(s, p) < U32_MAX
    case Update(p, _) => Count(s, p) <= 1
    case _ => true
  }

  predicate GuardedRun(s: State, steps: seq<Step>)
    decreases |steps|
  {
    steps == [] || (Guarded(s, steps[0]) && GuardedRun(Next(s, steps[0]), steps[1..]))
  }

  function AddsOf(step: Step, p: string): nat {
    if step == Add(p) then 1 else 0
  }

  /** References a step gives back. */
  function GivesBack(s: State, step: Step, p: string): nat {
    match step
    case Remove(q) => if q == p then Min(1, Count(s, p)) else 0
    case RemoveContainer(cid) => Min(multiset(Mounts(s, cid))[p], Count(s, p))
    case _ => 0
  }

  function Adds(steps: seq<Step>, p: string): nat {
    if steps == [] then 0 else AddsOf(steps[0], p) + Adds(steps[1..], p)
  }

  function GivenBack(s: State, steps: seq<Step>, p: string): nat
    decreases |steps|
  {
    if steps == [] then 0 else GivesBack(s, steps[0], p) + GivenBack(Next(s, steps[0]), steps[1..], p)
  }

  lemma StepConserves(s: State, step: Step, p: string)
    requires Valid(s) && Guarded(s, step)
    ensures Valid(Next(s, step))
    ensures Count(Next(s, step), p) == Count(s, p) + AddsOf(step, p) - GivesBack(s, step, p)
  {
    hide Added, Updated, Removed, ContainerRemoved;
    match step
    case Add(q) => AddConserves(s, q, p);
    case Update(q, d) => UpdateConserves(s, q, d, p);
    case Remove(q) => RemoveConserves(s, q, p);
    case Record(cid, ms) =>
    case RemoveContainer(cid) => ContainerTakes(s, cid, p);
  }

  /** Over every run a path's count is its adds less what was given back, and it has an entry just while that is
      positive. */
  lemma {:induction false} RunConserves(s: State, steps: seq<Step>, p: string)
    requires Valid(s) && GuardedRun(s, steps)
    ensures Valid(After(s, steps))
    ensures Count(After(s, steps), p) == Count(s, p) + Adds(steps, p) - GivenBack(s, steps, p)
    ensures p in After(s, steps).storages <==> Count(s, p) + Adds(steps, p) - GivenBack(s, steps, p) > 0
    decreases |steps|
  {
    hide Guarded, Next, GivesBack;
    if steps != [] {
      StepConserves(s, steps[0], p);
      RunConserves(Next(s, steps[0]), steps[1..], p);
    }
  }

  /** Two users of a new path: the device arrives after the second has counted itself, and its reference is lost. */
  lemma LateUpdateLoses(p: string, d: Device)
    ensures var s := After(State(map[], map[], []), [Add(p), Add(p), Update(p, d)]);
            Count(s, p) == 1 && p !in Removed(s, p).storages
  {
    var s0 := State(map[], map[], []);
    var steps := [Add(p), Add(p), Update(p, d)];
    assert After(Added(Added(s0, p), p), steps[1..][1..]) == Updated(Added(Added(s0, p), p), p, d);
  }

  /** Lifetimes of a path begun so far: those ended by a cleanup, and the current one. */
  function Lives(s: State, p: string): nat {
    multiset(s.cleaned)[p] + if p in s.storages then 1 else 0
  }

  function Births(s: State, steps: seq<Step>, p: string): nat
    decreases |steps|
  {
    if steps == [] then 0
    else (if steps[0] == Add(p) && p !in s.storages then 1 else 0) + Births(Next(s, steps[0]), steps[1..], p)
  }

  lemma RemoveEndsOne(s: State, p: string, q: string)
    ensures Lives(Removed(s, p), q) == Lives(s, q)
  {
  }

  lemma {:induction false} BackwardsEnds(s: State, ms: seq<string>, q: string)
    ensures Lives(RemovedBackwards(s, ms), q) == Lives(s, q)
    decreases |ms|
  {
    if ms != [] {
      RemoveEndsOne(s, ms[|ms| - 1], q);
      BackwardsEnds(Removed(s, ms[|ms| - 1]), ms[..|ms| - 1], q);
    }
  }

  /** Cleanup runs exactly once for every lifetime that is over. */
  lemma {:induction false} CleanedOncePerLife(s: State, steps: seq<Step>, p: string)
    ensures Lives(After(s, steps), p) == Lives(s, p) + Births(s, steps, p)
    decreases |steps|
  {
    if steps != [] {
      StepLives(s, steps[0], p);
      CleanedOncePerLife(Next(s, steps[0]), steps[1..], p);
    }
  }

  lemma StepLives(s: State, step: Step, p: string)
    ensures Lives(Next(s, step), p) == Lives(s, p) + if step == Add(p) && p !in s.storages then 1 else 0
  {
    match step
    case Remove(q) => RemoveEndsOne(s, q, p);
    case RemoveContainer(cid) => BackwardsEnds(s, Present(s, Mounts(s, cid)), p);
    case _ =>
  }

  /** How often a path is on record with the given containers. */
  function Held(s: State, order: seq<string>, p: string): nat {
    if order == [] then 0 else multiset(Mounts(s, order[0]))[p] + Held(s, order[1..], p)
  }

  predicate Distinct(order: seq<string>) {
    forall i, j :: 0 <= i < j < |order| ==> order[i] != order[j]
  }

  function AllRemoved(s: State, order: seq<string>): State
    decreases |order|
  {
    if order == [] then s else AllRemoved(ContainerRemoved(s, order[0]), order[1..])
  }

  lemma {:induction false} HeldByOthers(s: State, cid: string, order: seq<string>, p: string)
    requires cid !in order && Valid(s)
    ensures Held(ContainerRemoved(s, cid), order, p) == Held(s, order, p)
  {
    if order != [] {
      ContainerTakes(s, cid, p);
      HeldByOthers(s, cid, order[1..], p);
    }
  }

  lemma {:induction false} AllRemovedTakes(s: State, order: seq<string>, p: string)
    requires Valid(s) && Distinct(order)
    ensures Count(AllRemoved(s, order), p) == Less(Count(s, p), Held(s, order, p))
    decreases |order|
  {
    hide ContainerRemoved, Count, Mounts;
    if order != [] {
      ContainerTakes(s, order[0], p);
      HeldByOthers(s, order[0], order[1..], p);
      AllRemovedTakes(ContainerRemoved(s, order[0]), order[1..], p);
    }
  }

  lemma {:induction false} HeldSplits(s: State, a: seq<string>, b: seq<string>, p: string)
    ensures Held(s, a + b, p) == Held(s, a, p) + Held(s, b, p)
  {
    if a == [] {
      assert a + b == b;
    } else {
      assert (a + b)[1..] == a[1..] + b;
      HeldSplits(s, a[1..], b, p);
    }
  }

  lemma DropOne(a: seq<string>, b: seq<string>, i: nat)
    requires a != [] && i < |b| && b[i] == a[0] && multiset(a) == multiset(b)
    ensures multiset(a[1..]) == multiset(b[..i] + b[i + 1..])
  {
    assert a == [a[0]] + a[1..];
    assert b == b[..i] + [b[i]] + b[i + 1..];
    var x := multiset{a[0]};
    assert multiset(b) == multiset(b[..i]) + x + multiset(b[i + 1..]);
    assert multiset(a[1..]) == multiset(a) - x;
    assert multiset(b[..i] + b[i + 1..]) == multiset(b) - x;
  }

  lemma {:induction false} HeldPermutes(s: State, a: seq<string>, b: seq<string>, p: string)
    requires multiset(a) == multiset(b)
    ensures Held(s, a, p) == Held(s, b, p)
  {
    hide Mounts;
    if a == [] {
      assert |multiset(a)| == |a| && |multiset(b)| == |b|;
    } else {
      assert a[0] in multiset(a) && a[0] in b;
      var i :| 0 <= i < |b| && b[i] == a[0];
      DropOne(a, b, i);
      HeldPermutes(s, a[1..], b[..i] + b[i + 1..], p);
      HeldSplits(s, b[..i], b[i + 1..], p);
      HeldSplits(s, b[..i], b[i..], p);
      assert b == b[..i] + b[i..] && b[i..][1..] == b[i + 1..];
    }
  }

  /** When every recorded mount holds one reference, removing all containers leaves the sandbox's own references,
      in whichever order they go. */
  lemma OnlySandboxRemains(s: State, listed: seq<string>, order: seq<string>, p: string, own: nat)
    requires Valid(s) && multiset(order) == multiset(listed) && Distinct(order)
    requires Count(s, p) == own + Held(s, listed, p)
    ensures Count(AllRemoved(s, order), p) == own
  {
    HeldPermutes(s, listed, order, p);
    AllRemovedTakes(s, order, p);
  }

  /** What the handler for a storage's driver does: there may be none, or it may fail to create the device. */
  datatype Handling = Missing | Fails | Makes(device: Device)

  datatype Request = Request(path: string, handling: Handling)

  function MountOf(d: Device): seq<string> {
    if d.path.Some? && d.path.value != "" then [d.path.value] else []
  }

  function Taken(s: State, r: Request): State {
    var t := Added(s, r.path);
    if Count(t, r.path) > 1 then t
    else match r.handling
      case Missing => t
      case Fails => Removed(t, r.path)
      case Makes(d) => Updated(t, r.path, d)
  }

  function TakenMount(s: State, r: Request): Result<seq<string>, Fault> {
    var t := Added(s, r.path);
    if Count(t, r.path) > 1 then Ok(MountOf(t.storages[r.path].device))
    else match r.handling
      case Missing => Err(NoHandler)
      case Fails => Err(NotCreated)
      case Makes(d) => Ok(MountOf(d))
  }

  /** Add storages one after the other, up to the first that cannot be had. */
  function AllTaken(s: State, list: seq<Request>, done: seq<string>): (State, Result<seq<string>, Fault>)
    decreases |list|
  {
    if list == [] then (s, Ok(done))
    else
      var m := TakenMount(s, list[0]);
      if m.Err? then (Taken(s, list[0]), Err(m.error))
      else AllTaken(Taken(s, list[0]), list[1..], done + m.value)
  }

  function Paths(list: seq<Request>): seq<string> {
    if list == [] then [] else [list[0].path] + Paths(list[1..])
  }

  ghost predicate Roomy(s: State, n: nat) {
    n <= U32_MAX && forall p <- s.storages :: s.storages[p].count + n <= U32_MAX
  }

  lemma OneTaken(s: State, r: Request, n: nat)
    requires Valid(s) && Roomy(s, n + 1)
    ensures Valid(Taken(s, r)) && Roomy(Taken(s, r), n) && Taken(s, r).mounts == s.mounts
    ensures TakenMount(s, r).Err? ==> (TakenMount(s, r).error == NoHandler <==> r.path in Taken(s, r).storages)
    ensures forall p :: Count(Taken(s, r), p) ==
                        Count(s, p) + if p == r.path && (TakenMount(s, r).Ok? || r.handling.Missing?) then 1 else 0
  {
  }

  /** How many requests were counted before the call stopped. */
  function Reach(s: State, list: seq<Request>): nat
    decreases |list|
  {
    if list == [] then 0
    else if TakenMount(s, list[0]).Err? then (if list[0].handling.Missing? then 1 else 0)
    else 1 + Reach(Taken(s, list[0]), list[1..])
  }

  /** One reference for each storage added; a call that fails keeps those it had taken, and that of a missing
      handler. */
  lemma {:induction false} AllTakenCounts(s: State, list: seq<Request>, done: seq<string>, p: string)
    requires Valid(s) && Roomy(s, |list|)
    ensures var (t, r) := AllTaken(s, list, done);
            && Valid(t) && t.mounts == s.mounts
            && Reach(s, list) <= |list| && (r.Ok? ==> Reach(s, list) == |list|)
            && Count(t, p) == Count(s, p) + multiset(Paths(list[..Reach(s, list)]))[p]
    decreases |list|
  {
    hide Taken, TakenMount, Count, Valid, Roomy;
    if list == [] {
    } else {
      OneTaken(s, list[0], |list| - 1);
      var k := Reach(s, list);
      if TakenMount(s, list[0]).Err? {
        assert list[..k] == if list[0].handling.Missing? then [list[0]] else [];
      } else {
        AllTakenCounts(Taken(s, list[0]), list[1..], done + TakenMount(s, list[0]).value, p);
        assert list[..k][1..] == list[1..][..k - 1];
      }
    }
  }

  /** A second user who comes before the device is counted, and has nothing to list. */
  lemma EarlyUserUnlisted(s: State, p: string, h: Handling, done: seq<string>)
    requires p !in s.storages
    ensures var (t, r) := AllTaken(Added(s, p), [Request(p, h)], done); r == Ok(done) && Count(t, p) == 2
  {
    var list := [Request(p, h)];
    assert list[1..] == [] && done + [] == done;
    assert TakenMount(Added(s, p), list[0]) == Ok([]);
    assert AllTaken(Added(s, p), list, done) == AllTaken(Taken(Added(s, p), list[0]), list[1..], done + []);
  }

  /** A new storage whose device has no path, or an empty one, is counted and not listed. */
  lemma NamelessUnlisted(s: State, p: string, d: Device, done: seq<string>)
    requires p !in s.storages && d.path in {None, Some("")}
    ensures var (t, r) := AllTaken(s, [Request(p, Makes(d))], done); r == Ok(done) && Count(t, p) == 1
  {
    var list := [Request(p, Makes(d))];
    assert list[1..] == [] && done + [] == done;
    assert TakenMount(s, list[0]) == Ok([]);
    assert AllTaken(s, list, done) == AllTaken(Taken(s, list[0]), list[1..], done + []);
  }

  /** Two storages of which the second cannot be created: the call fails, and the first one's reference stays. */
  lemma FailedCallKeeps(p: string, q: string, d: Device)
    requires p != q
    ensures var (t, r) := AllTaken(State(map[], map[], []), [Request(p, Makes(d)), Request(q, Fails)], []);
            r == Err(NotCreated) && Count(t, p) == 1 && Count(t, q) == 0
  {
    var s0 := State(map[], map[], []);
    var list := [Request(p, Makes(d)), Request(q, Fails)];
    var s1 := Taken(s0, list[0]);
    assert TakenMount(s0, list[0]) == Ok(MountOf(d)) && list[1..][0] == list[1];
    assert TakenMount(s1, list[1]) == Err(NotCreated);
    assert AllTaken(s0, list, []) == AllTaken(s1, list[1..], [] + MountOf(d)) == (Taken(s1, list[1]), Err(NotCreated));
  }

  /** Devices report the path they are mounted at. */
  ghost predicate Named(s: State) {
    forall p <- s.storages :: s.storages[p].device.path == Some(p) && p != ""
  }

  predicate NamesItself(r: Request) {
    r.path != "" && (r.handling.Makes? ==> r.handling.device.path == Some(r.path))
  }

  lemma OneNamed(s: State, r: Request)
    requires Named(s) && NamesItself(r) && TakenMount(s, r).Ok? && Valid(s) && Roomy(s, 1)
    ensures Named(Taken(s, r)) && TakenMount(s, r).value == [r.path]
  {
  }

  lemma {:induction false} MountsAreThePaths(s: State, list: seq<Request>, done: seq<string>)
    requires Named(s) && Valid(s) && Roomy(s, |list|) && forall i :: 0 <= i < |list| ==> NamesItself(list[i])
    requires AllTaken(s, list, done).1.Ok?
    ensures AllTaken(s, list, done).1.value == done + Paths(list)
    decreases |list|
  {
    hide Taken, TakenMount, NamesItself, Named, Valid;
    if list != [] {
      LessRoom(s, |list|);
      OneTaken(s, list[0], |list| - 1);
      OneNamed(s, list[0]);
      MountsAreThePaths(Taken(s, list[0]), list[1..], done + [list[0].path]);
    }
  }

  lemma LessRoom(s: State, n: nat)
    requires Roomy(s, n) && n > 0
    ensures Roomy(s, 1)
  {
  }

  /** A container's life leaves the counts as they were: take its storages, put them on record, remove the container. */
  lemma ContainerCycle(s: State, list: seq<Request>, cid: string, p: string)
    requires Named(s) && Valid(s) && Roomy(s, |list|) && forall i :: 0 <= i < |list| ==> NamesItself(list[i])
    requires AllTaken(s, list, []).1.Ok?
    ensures var (t, r) := AllTaken(s, list, []);
            Count(ContainerRemoved(Next(t, Record(cid, r.value)), cid), p) == Count(s, p)
  {
    hide AllTaken, ContainerRemoved, NamesItself, Named, Roomy;
    var (t, r) := AllTaken(s, list, []);
    MountsAreThePaths(s, list, []);
    AllTakenCounts(s, list, [], p);
    assert list[..|list|] == list;
    ContainerTakes(Next(t, Record(cid, r.value)), cid, p);
  }

  /** The sandbox's storage table, updated in place. */
  class Sandbox {
    var storages: map<string, Entry>
    var mounts: map<string, seq<string>>
    var cleaned: seq<string>

    ghost function View(): State
      reads this
    {
      State(storages, mounts, cleaned)
    }

    method AddSandboxStorage(p: string) returns (e: Entry)
      modifies this`storages
      ensures View() == Added(old(View()), p)
      ensures p in storages && e == storages[p]
    {
      if p in storages {
        e := storages[p].(count := Inc(storages[p].count));
      } else {
        e := Entry(1, GENERIC);
      }
      storages := storages[p := e];
    }

    method UpdateSandboxStorage(p: string, d: Device) returns (r: Result<Device, Device>)
      modifies this`storages
      ensures View() == Updated(old(View()), p, d)
      ensures r == if p in old(storages) then Ok(old(storages)[p].device) else Err(d)
    {
      if p !in storages {
        return Err(d);
      }
      r := Ok(storages[p].device);
      storages := storages[p := Entry(1, d)];
    }

    method RemoveSandboxStorage(p: string) returns (r: Result<bool, Fault>)
      modifies this
      ensures View() == Removed(old(View()), p)
      ensures r == if p !in old(storages) then Err(NotFound)
                   else if old(storages)[p].count != 1 then Ok(false)
                   else if old(storages)[p].device.cleans then Ok(true) else Err(CleanupFailed)
    {
      if p !in storages {
        return Err(NotFound);
      }
      var e := storages[p];
      if e.count == 1 {
        storages, cleaned := storages - {p}, cleaned + [p];
        return if e.device.cleans then Ok(true) else Err(CleanupFailed);
      }
      storages := storages[p := e.(count := Dec(e.count))];
      r := Ok(false);
    }

    method RemoveContainerResources(cid: string)
      modifies this
      ensures View() == ContainerRemoved(old(View()), cid)
    {
      hide Removed;
      var cmounts: seq<string> := [];
      if cid in mounts {
        var ms := mounts[cid];
        for i := 0 to |ms|
          invariant cmounts == Present(View(), ms[..i])
        {
          assert ms[..i + 1][..i] == ms[..i];
          if ms[i] in storages {
            cmounts := cmounts + [ms[i]];
          }
        }
        assert ms[..|ms|] == ms;
      }
      var i := |cmounts|;
      assert cmounts[..i] == cmounts;
      while i > 0
        invariant 0 <= i <= |cmounts|
        invariant RemovedBackwards(View(), cmounts[..i]) == RemovedBackwards(old(View()), cmounts)
      {
        i := i - 1;
        assert cmounts[..i + 1][..i] == cmounts[..i];
        var _ := RemoveSandboxStorage(cmounts[i]);
      }
      mounts := mounts - {cid};
    }

    method AddStorages(list: seq<Request>) returns (r: Result<seq<string>, Fault>)
      modifies this
      ensures AllTaken(old(View()), list, []) == (View(), r)
    {
      hide Added, Removed, Updated;
      var done: seq<string> := [];
      for i := 0 to |list|
        invariant AllTaken(View(), list[i..], done) == AllTaken(old(View()), list, [])
      {
        var req := list[i];
        assert list[i..][1..] == list[i + 1..];
        var e := AddSandboxStorage(req.path);
        if e.count > 1 {
          done := done + MountOf(e.device);
          continue;
        }
        match req.handling {
          case Missing => return Err(NoHandler);
          case Fails =>
            var _ := RemoveSandboxStorage(req.path);
            return Err(NotCreated);
          case Makes(d) =>
            var _ := UpdateSandboxStorage(req.path, d);
            done := done + MountOf(d);
        }
      }
      r := Ok(done);
    }
  }
}
