/** Clients of one manager: any sequence of allocations and releases, and the account of what is out. */
module Sessions {
  import opened Wrappers
  import opened Ranges
  import opened IntervalNodes
  import opened IntervalTrees
  import opened Leases
  import opened Layouts
  import opened ResourceManagers

  /** Ask for a device's resources, or give back the list that the `i`th successful call returned. */
  datatype Call = Allocate(requests: seq<ResourceConstraint>, sharedIrq: bool) | Release(i: nat)

  /** What a call came to; `Unknown` is a release of a list that was never handed out. */
  datatype Reply = Answered(r: TxResult) | Returned(out: FreeOutcome) | Unknown

  predicate Crashing(r: Reply) {
    (r.Answered? && r.r.Crashed?) || (r.Returned? && r.out.Panicked?)
  }

  predicate TypedCall(c: Call) {
    c.Allocate? ==> forall i :: 0 <= i < |c.requests| ==> Typed(c.requests[i])
  }

  predicate AllSafe(l: Layout, maxSlots: nat, requests: seq<ResourceConstraint>) {
    forall i :: 0 <= i < |requests| ==> SafeRequest(l, maxSlots, requests[i])
  }

  predicate AllHarmless(l: Layout, leases: seq<Option<Lease>>) {
    forall i :: 0 <= i < |leases| ==> Harmless(l, leases[i])
  }

  function FirstHarmful(l: Layout, leases: seq<Option<Lease>>): (k: nat)
    ensures k <= |leases|
  {
    if leases == [] || !Harmless(l, leases[0]) then 0 else 1 + FirstHarmful(l, leases[1..])
  }

  /** What stays out when a list of grants goes back: the first harmful one and those after it. */
  ghost function Left(l: Layout, leases: seq<Option<Lease>>): set<Lease> {
    LeaseSet(leases[FirstHarmful(l, leases)..])
  }

  lemma {:induction false} FirstHarmfulIs(l: Layout, leases: seq<Option<Lease>>, k: nat)
    requires k <= |leases| && (forall j :: 0 <= j < k ==> Harmless(l, leases[j]))
    requires k < |leases| ==> !Harmless(l, leases[k])
    ensures FirstHarmful(l, leases) == k && (AllHarmless(l, leases) <==> k == |leases|)
  {
    hide Harmless;
    if k > 0 {
      FirstHarmfulIs(l, leases[1..], k - 1);
    }
  }

  lemma {:induction false} HarmlessLeavesNothing(l: Layout, leases: seq<Option<Lease>>)
    requires AllHarmless(l, leases)
    ensures FirstHarmful(l, leases) == |leases| && Left(l, leases) == {}
  {
    hide Harmless;
    if leases != [] {
      HarmlessLeavesNothing(l, leases[1..]);
    }
    assert leases[|leases|..] == [];
    assert LeaseSet([]) == {};
  }

  /** An allocation: granted just when the pools hold enough, and then backed by those very leases; else stuck at a
      request that nothing left can meet, and rolled back but for what cannot go back, with the error of that. */
  ghost predicate DidAllocate(l: Layout, maxSlots: nat, p: Pools, requests: seq<ResourceConstraint>, sharedIrq: bool,
                              r: TxResult, p': Pools) {
    var g := Grants(l, sharedIrq, p, requests);
    && (r.Granted? <==> |g| == |requests|) && (r.Granted? <==> Servable(l, sharedIrq, FreeValues(p), requests))
    && (r.Granted? ==> Served(l, sharedIrq, FreeValues(p), requests, r.resources))
    && (r.Granted? ==> Backed(l, maxSlots, requests, sharedIrq, r.resources, g) && Lent(p, LeaseSet(g), p'))
    && (!r.Granted? ==> (r == Failed(NoAvailResource) <==> AllHarmless(l, g)))
    && (r.Failed? ==> Lent(p, Left(l, g), p'))
    && (r.Failed? && r.error.InvalidResourceRange? ==>
          var k := FirstHarmful(l, g);
          k < |g| && g[k].Some? && g[k].value.pool == r.error.kind)
    && (r.Crashed? ==>
          var k := FirstHarmful(l, g);
          k < |g| && g[k].Some? && g[k].value.pool == KvmSlotPool)
    && (!r.Granted? ==> |g| < |requests| && Stuck(l, maxSlots, p, requests, sharedIrq, g))
  }

  /** A release: the list goes back up to the first resource that is refused or panics. */
  ghost predicate DidRelease(l: Layout, list: seq<Resource>, p: Pools, out: FreeOutcome, p': Pools) {
    exists k: nat, ps :: ReleasedUpTo(l, list, p, out, p', k, ps)
  }

  ghost predicate ReleasedUpTo(l: Layout, list: seq<Resource>, p: Pools, out: FreeOutcome, p': Pools, k: nat,
                               ps: seq<Pools>) {
    && FreeChain(l, list, k, ps) && ps[0] == p && (out.Freed? <==> k == |list|)
    && (!out.Freed? ==> FreeStops(l, ps[k], list[k], out))
    && (!out.Panicked? ==> p' == ps[k])
  }

  /** A granted list, with what it was granted for and the leases behind it. */
  datatype Holding = Holding(resources: seq<Resource>, requests: seq<ResourceConstraint>, sharedIrq: bool,
                             leases: seq<Option<Lease>>)

  /** The lists handed out so far, those not given back, and the leases that are out. */
  datatype Account = Account(hs: seq<Holding>, open: set<nat>, out: set<Lease>)

  const NEW := Account([], {}, {})

  ghost function Booked(l: Layout, a: Account, call: Call, reply: Reply, p: Pools): Account {
    match call
    case Allocate(requests, sharedIrq) =>
      var g := Grants(l, sharedIrq, p, requests);
      if reply.Answered? && reply.r.Granted? then
        Account(a.hs + [Holding(reply.r.resources, requests, sharedIrq, g)], a.open + {|a.hs|}, a.out + LeaseSet(g))
      else a.(out := a.out + Left(l, g))
    case Release(i) =>
      if i in a.open && i < |a.hs| then
        a.(open := a.open - {i}, out := a.out - LeaseSet(a.hs[i].leases) + Left(l, a.hs[i].leases))
      else a
  }

  ghost predicate Did(l: Layout, maxSlots: nat, a: Account, p: Pools, call: Call, reply: Reply, p': Pools) {
    match call
    case Allocate(requests, sharedIrq) =>
      reply.Answered? && DidAllocate(l, maxSlots, p, requests, sharedIrq, reply.r, p')
    case Release(i) =>
      if i < |a.hs| then reply.Returned? && DidRelease(l, a.hs[i].resources, p, reply.out, p')
      else reply.Unknown? && p' == p
  }

  ghost function After(l: Layout, calls: seq<Call>, replies: seq<Reply>, views: seq<Pools>, n: nat): Account
    requires n <= |replies| <= |calls| && |replies| <= |views|
  {
    if n == 0 then NEW
    else Booked(l, After(l, calls, replies, views, n - 1), calls[n - 1], replies[n - 1], views[n - 1])
  }

  /** The replies and the pools are those of the calls, one after the other; a crash is the end. */
  ghost predicate Happened(l: Layout, maxSlots: nat, calls: seq<Call>, replies: seq<Reply>, views: seq<Pools>) {
    && |replies| <= |calls| && |views| == |replies| + 1
    && (forall n: nat :: n < |replies| ==>
          Did(l, maxSlots, After(l, calls, replies, views, n), views[n], calls[n], replies[n], views[n + 1]))
    && (forall n :: 0 <= n < |replies| - 1 ==> !Crashing(replies[n]))
  }

  predicate Crashed(replies: seq<Reply>) {
    replies != [] && Crashing(replies[|replies| - 1])
  }

  /** No list is given back a second time. */
  ghost predicate Proper(l: Layout, calls: seq<Call>, replies: seq<Reply>, views: seq<Pools>, n: nat)
    requires n <= |replies| <= |calls| && |replies| <= |views|
  {
    forall j: nat :: j < n && calls[j].Release? && calls[j].i < |After(l, calls, replies, views, j).hs| ==>
      calls[j].i in After(l, calls, replies, views, j).open
  }

  /** The open lists are backed by leases of their own, all of them out. */
  ghost predicate Backs(l: Layout, maxSlots: nat, h: Holding) {
    Backed(l, maxSlots, h.requests, h.sharedIrq, h.resources, h.leases)
  }

  ghost predicate Accounts(l: Layout, maxSlots: nat, a: Account) {
    && (forall i <- a.open :: i < |a.hs| && Backs(l, maxSlots, a.hs[i]) && LeaseSet(a.hs[i].leases) <= a.out)
    && (forall i <- a.open, j <- a.open :: i != j ==> LeaseSet(a.hs[i].leases) !! LeaseSet(a.hs[j].leases))
  }

  /** Nothing is out but what the open lists stand for, and all of it can go back. */
  ghost predicate Tidy(l: Layout, a: Account) {
    && (forall x <- a.out :: exists i <- a.open :: i < |a.hs| && x in LeaseSet(a.hs[i].leases))
    && (forall i <- a.open :: i < |a.hs| && AllHarmless(l, a.hs[i].leases))
  }

  lemma Opened(l: Layout, maxSlots: nat, a: Account, h: Holding)
    requires Accounts(l, maxSlots, a) && Backs(l, maxSlots, h) && a.out !! LeaseSet(h.leases)
    ensures var b := Account(a.hs + [h], a.open + {|a.hs|}, a.out + LeaseSet(h.leases));
            Accounts(l, maxSlots, b) && (Tidy(l, a) && AllHarmless(l, h.leases) ==> Tidy(l, b))
  {
    hide Backs, LeaseSet, AllHarmless;
    var b := Account(a.hs + [h], a.open + {|a.hs|}, a.out + LeaseSet(h.leases));
    assert forall i <- a.open :: b.hs[i] == a.hs[i];
    if Tidy(l, a) {
      forall x <- b.out
        ensures exists i <- b.open :: i < |b.hs| && x in LeaseSet(b.hs[i].leases)
      {
        if x in a.out {
          var i :| i in a.open && i < |a.hs| && x in LeaseSet(a.hs[i].leases);
          assert i in b.open && x in LeaseSet(b.hs[i].leases);
        } else {
          assert |a.hs| in b.open && x in LeaseSet(b.hs[|a.hs|].leases);
        }
      }
    }
  }

  lemma Closed(l: Layout, maxSlots: nat, a: Account, i: nat, left: set<Lease>)
    requires Accounts(l, maxSlots, a) && i in a.open
    ensures var b := a.(open := a.open - {i}, out := a.out - LeaseSet(a.hs[i].leases) + left);
            Accounts(l, maxSlots, b) && (Tidy(l, a) && left == {} ==> Tidy(l, b))
  {
    hide Backs, LeaseSet, AllHarmless;
    var b := a.(open := a.open - {i}, out := a.out - LeaseSet(a.hs[i].leases) + left);
    forall j <- b.open
      ensures LeaseSet(b.hs[j].leases) <= b.out
    {
      assert LeaseSet(a.hs[i].leases) !! LeaseSet(a.hs[j].leases);
    }
    if Tidy(l, a) && left == {} {
      forall x <- b.out
        ensures exists j <- b.open :: j < |b.hs| && x in LeaseSet(b.hs[j].leases)
      {
        var j :| j in a.open && j < |a.hs| && x in LeaseSet(a.hs[j].leases);
        assert j in b.open;
      }
    }
  }

  /** The account after an allocation. */
  lemma AllocateBooked(l: Layout, maxSlots: nat, p: Pools, a: Account, q: Pools, requests: seq<ResourceConstraint>,
                       sharedIrq: bool, r: TxResult, q': Pools)
    requires Lent(p, a.out, q) && Accounts(l, maxSlots, a) && !r.Crashed?
    requires DidAllocate(l, maxSlots, q, requests, sharedIrq, r, q')
    ensures var b := Booked(l, a, Allocate(requests, sharedIrq), Answered(r), q);
            && Lent(p, b.out, q') && Accounts(l, maxSlots, b)
            && (Tidy(l, a) && AllSafe(l, maxSlots, requests) ==> Tidy(l, b))
  {
    hide Lent, Grants, LeaseSet, AllHarmless, AllSafe, Tidy, Accounts, Left, Stuck;
    var g := Grants(l, sharedIrq, q, requests);
    if r.Granted? {
      LentCompose(p, a.out, q, LeaseSet(g), q');
      Opened(l, maxSlots, a, Holding(r.resources, requests, sharedIrq, g));
      if AllSafe(l, maxSlots, requests) {
        SafeIsHarmless(l, maxSlots, requests, sharedIrq, r.resources, g);
      }
    } else {
      LentCompose(p, a.out, q, Left(l, g), q');
      StillOpen(l, maxSlots, a, Left(l, g));
      if AllSafe(l, maxSlots, requests) {
        SafeFails(l, maxSlots, q, requests, sharedIrq, g);
      }
      if AllHarmless(l, g) {
        HarmlessLeavesNothing(l, g);
        assert a.out + {} == a.out;
      }
    }
  }

  lemma StillOpen(l: Layout, maxSlots: nat, a: Account, more: set<Lease>)
    requires Accounts(l, maxSlots, a)
    ensures Accounts(l, maxSlots, a.(out := a.out + more))
  {
    hide Backs, LeaseSet;
  }

  lemma SafeIsHarmless(l: Layout, maxSlots: nat, requests: seq<ResourceConstraint>, sharedIrq: bool,
                       resources: seq<Resource>, leases: seq<Option<Lease>>)
    requires Backed(l, maxSlots, requests, sharedIrq, resources, leases) && AllSafe(l, maxSlots, requests)
    ensures AllHarmless(l, leases)
  {
    hide Answers, Harmless, SafeRequest, Typed, Distinct;
    forall i | 0 <= i < |leases|
      ensures Harmless(l, leases[i])
    {
      SafeRequestsAreHarmless(l, maxSlots, requests[i], sharedIrq, resources[i], leases[i]);
    }
  }

  lemma SafeFails(l: Layout, maxSlots: nat, p: Pools, requests: seq<ResourceConstraint>, sharedIrq: bool,
                  leases: seq<Option<Lease>>)
    requires |leases| < |requests| && Stuck(l, maxSlots, p, requests, sharedIrq, leases)
    requires AllSafe(l, maxSlots, requests)
    ensures AllHarmless(l, leases)
  {
    hide Backed, Lent, Hopeless, SafeRequest;
    var resources :| Backed(l, maxSlots, requests, sharedIrq, resources, leases);
    SafeIsHarmless(l, maxSlots, requests, sharedIrq, resources, leases);
  }

  /** A granted list on its way back stops just at its first harmful grant. */
  lemma ReleaseStops(l: Layout, maxSlots: nat, h: Holding, p: Pools, others: set<Lease>, q: Pools, out: FreeOutcome,
                     q': Pools)
    requires l.WellFormed() && maxSlots <= U32_MAX && Backs(l, maxSlots, h)
    requires Lent(p, others + LeaseSet(h.leases), q) && others !! LeaseSet(h.leases)
    requires DidRelease(l, h.resources, q, out, q')
    ensures out.Freed? <==> AllHarmless(l, h.leases)
    ensures !out.Panicked? ==> Lent(p, others + Left(l, h.leases), q')
    ensures out.Panicked? ==>
      var k := FirstHarmful(l, h.leases);
      k < |h.leases| && h.leases[k].Some? && h.leases[k].value.pool == KvmSlotPool
  {
    hide Lent, Layout.WellFormed, Answers, Typed, Harmless, LeaseSet, Distinct, FreeStep, FreeStops, InPool;
    var k: nat, ps :| ReleasedUpTo(l, h.resources, q, out, q', k, ps);
    LeasedFree(l, maxSlots, h.requests, h.sharedIrq, h.resources, h.leases, p, others, k, ps);
    if k < |h.leases| {
      LeasedStop(l, maxSlots, h.requests[k], h.sharedIrq, h.resources[k], h.leases, k, p, others, ps[k], out);
    }
    FirstHarmfulIs(l, h.leases, k);
  }

  /** The account after a release of an open list. */
  lemma ReleaseBooked(l: Layout, maxSlots: nat, p: Pools, a: Account, q: Pools, i: nat, out: FreeOutcome, q': Pools)
    requires l.WellFormed() && maxSlots <= U32_MAX && Lent(p, a.out, q) && Accounts(l, maxSlots, a) && i in a.open
    requires DidRelease(l, a.hs[i].resources, q, out, q')
    ensures Tidy(l, a) ==> out.Freed?
    ensures var b := Booked(l, a, Release(i), Returned(out), q);
            && Accounts(l, maxSlots, b) && (!out.Panicked? ==> Lent(p, b.out, q')) && (Tidy(l, a) ==> Tidy(l, b))
  {
    hide Lent, LeaseSet, AllHarmless, Left, DidRelease, Backs, Layout.WellFormed;
    var h := a.hs[i];
    var others := a.out - LeaseSet(h.leases);
    assert others + LeaseSet(h.leases) == a.out;
    ReleaseStops(l, maxSlots, h, p, others, q, out, q');
    Closed(l, maxSlots, a, i, Left(l, h.leases));
    if Tidy(l, a) {
      HarmlessLeavesNothing(l, h.leases);
    }
  }

  /** The run is one in which every client asks for what can go back. */
  ghost predicate Sensible(l: Layout, maxSlots: nat, calls: seq<Call>, n: nat)
    requires n <= |calls|
  {
    forall j :: 0 <= j < n && calls[j].Allocate? ==> AllSafe(l, maxSlots, calls[j].requests)
  }

  lemma OneCall(l: Layout, maxSlots: nat, p: Pools, a: Account, q: Pools, call: Call, reply: Reply, q': Pools)
    requires l.WellFormed() && maxSlots <= U32_MAX && Lent(p, a.out, q) && Accounts(l, maxSlots, a)
    requires Did(l, maxSlots, a, q, call, reply, q') && !Crashing(reply)
    requires call.Release? && call.i < |a.hs| ==> call.i in a.open
    ensures var b := Booked(l, a, call, reply, q);
            && Lent(p, b.out, q') && Accounts(l, maxSlots, b)
            && (Tidy(l, a) && (call.Allocate? ==> AllSafe(l, maxSlots, call.requests)) ==> Tidy(l, b))
  {
    hide Lent, DidAllocate, DidRelease, AllSafe, Layout.WellFormed, Tidy;
    match call
    case Allocate(requests, sharedIrq) => AllocateBooked(l, maxSlots, p, a, q, requests, sharedIrq, reply.r, q');
    case Release(i) =>
      if i < |a.hs| {
        ReleaseBooked(l, maxSlots, p, a, q, i, reply.out, q');
      }
  }

  lemma NothingBooked(l: Layout, maxSlots: nat, p: Pools)
    requires AllPools(p)
    ensures Lent(p, NEW.out, p) && Accounts(l, maxSlots, NEW) && Tidy(l, NEW)
  {
    LendNothing(p);
  }

  /** After any sequence of calls in which no list is given back twice, what is out is pairwise disjoint, lies in the
      space that was free at the start and is accounted for; each open list is backed by leases of its own; and the
      pools are as at the start just when nothing is out. With requests that can go back, nothing is out but what the
      open lists stand for. */
  lemma {:induction false} SessionAccounts(l: Layout, maxSlots: nat, calls: seq<Call>, replies: seq<Reply>,
                                           views: seq<Pools>, n: nat)
    requires l.WellFormed() && maxSlots <= U32_MAX && Happened(l, maxSlots, calls, replies, views)
    requires AllPools(views[0]) && n <= |replies| && Proper(l, calls, replies, views, n)
    requires n == |replies| ==> !Crashed(replies)
    ensures var a := After(l, calls, replies, views, n);
            && Lent(views[0], a.out, views[n]) && Accounts(l, maxSlots, a)
            && (a.out == {} <==> views[n] == views[0])
            && (Sensible(l, maxSlots, calls, n) ==> Tidy(l, a))
    decreases n
  {
    hide Lent, Accounts, Tidy, Did, Booked, AllSafe, Layout.WellFormed, AllPools;
    var a := After(l, calls, replies, views, n);
    if n == 0 {
      NothingBooked(l, maxSlots, views[0]);
    } else {
      var k := n - 1;
      SessionAccounts(l, maxSlots, calls, replies, views, k);
      OneCall(l, maxSlots, views[0], After(l, calls, replies, views, k), views[k], calls[k], replies[k], views[n]);
    }
    if a.out == {} {
      NothingLent(views[0], views[n]);
    } else {
      LentIsChanged(views[0], a.out, views[n]);
    }
  }

  /** Clients with such requests that give no list back twice never see a crash, and have the pools restored once they
      have given back every list. */
  lemma SessionRestores(l: Layout, maxSlots: nat, calls: seq<Call>, replies: seq<Reply>, views: seq<Pools>)
    requires l.WellFormed() && maxSlots <= U32_MAX && Happened(l, maxSlots, calls, replies, views)
    requires AllPools(views[0]) && Proper(l, calls, replies, views, |replies|)
    requires Sensible(l, maxSlots, calls, |replies|)
    ensures !Crashed(replies)
    ensures After(l, calls, replies, views, |replies|).open == {} ==> views[|replies|] == views[0]
  {
    hide Lent, Accounts, Did, Layout.WellFormed, AllPools, AllSafe, After, Tidy;
    var n := |replies|;
    if n > 0 {
      SessionAccounts(l, maxSlots, calls, replies, views, n - 1);
      NoCrash(l, maxSlots, views[0], After(l, calls, replies, views, n - 1), views[n - 1], calls[n - 1], replies[n - 1],
              views[n]);
    }
    SessionAccounts(l, maxSlots, calls, replies, views, n);
    TidyMeans(l, After(l, calls, replies, views, n));
  }

  lemma TidyMeans(l: Layout, a: Account)
    requires Tidy(l, a)
    ensures a.open == {} ==> a.out == {}
  {
  }

  lemma NoCrash(l: Layout, maxSlots: nat, p: Pools, a: Account, q: Pools, call: Call, reply: Reply, q': Pools)
    requires l.WellFormed() && maxSlots <= U32_MAX && Lent(p, a.out, q) && Accounts(l, maxSlots, a) && Tidy(l, a)
    requires Did(l, maxSlots, a, q, call, reply, q')
    requires call.Release? && call.i < |a.hs| ==> call.i in a.open
    requires call.Allocate? ==> AllSafe(l, maxSlots, call.requests)
    ensures !Crashing(reply)
  {
    hide Lent, DidRelease, AllSafe, AllHarmless, Layout.WellFormed, Tidy, Grants, Backed, Left, Stuck;
    if call.Release? && call.i < |a.hs| {
      ReleaseBooked(l, maxSlots, p, a, q, call.i, reply.out, q');
    }
    if call.Allocate? && !reply.r.Granted? {
      SafeFails(l, maxSlots, q, call.requests, call.sharedIrq, Grants(l, call.sharedIrq, q, call.requests));
    }
  }

  /** One allocation of a session. */
  method DoAllocate(m: ResourceManager, requests: seq<ResourceConstraint>, sharedIrq: bool) returns (r: TxResult)
    requires m.Valid() && forall i :: 0 <= i < |requests| ==> Typed(requests[i])
    modifies m`view, m.Trees()
    ensures DidAllocate(m.layout, m.maxSlots, old(m.view), requests, sharedIrq, r, m.view)
    ensures !r.Crashed? ==> m.Valid()
  {
    hide Lent, ResourceManager.Valid, ResourceManager.Sound, Backed, Grants, SafeRequest, Typed, LeaseSet, AllPools,
      Stuck;
    ghost var q := m.view;
    m.ValidParts();
    ghost var g;
    r, g := m.AllocateDeviceResources(requests, sharedIrq);
    if r.Granted? {
      return;
    }
    if r == Failed(NoAvailResource) {
      HarmlessLeavesNothing(m.layout, g);
      LendNothing(q);
    } else if r.Failed? {
      ghost var k: nat :| LeftOut(m, q, g, k, r.error.kind);
      StopsAt(m.layout, g, k);
    } else {
      ghost var k :| 0 <= k < |g| && FirstHarm(m.layout, g, k) && g[k].value.pool == KvmSlotPool;
      StopsAt(m.layout, g, k);
    }
  }

  lemma StopsAt(l: Layout, leases: seq<Option<Lease>>, k: nat)
    requires k < |leases| && FirstHarm(l, leases, k)
    ensures FirstHarmful(l, leases) == k && leases[k].Some?
  {
    FirstHarmfulIs(l, leases, k);
  }

  /** A granted list names only ranges of the pools, whether or not they can go back. */
  lemma GrantedInPool(l: Layout, maxSlots: nat, h: Holding)
    requires l.WellFormed() && maxSlots <= U32_MAX && Backs(l, maxSlots, h)
    ensures forall i :: 0 <= i < |h.resources| ==> InPool(l, maxSlots, h.resources[i]) && TypedResource(h.resources[i])
  {
    hide Answers, InPool, Typed, Layout.WellFormed, TypedResource, Distinct;
    forall i | 0 <= i < |h.resources|
      ensures InPool(l, maxSlots, h.resources[i]) && TypedResource(h.resources[i])
    {
      AnswerInPool(l, maxSlots, h.requests[i], h.sharedIrq, h.resources[i], h.leases[i]);
      AnswersTyped(l, maxSlots, h.requests[i], h.sharedIrq, h.resources[i], h.leases[i]);
    }
  }

  lemma AnswerInPool(l: Layout, maxSlots: nat, req: ResourceConstraint, sharedIrq: bool, res: Resource,
                     lease: Option<Lease>)
    requires l.WellFormed() && maxSlots <= U32_MAX && Typed(req) && Answers(l, maxSlots, req, sharedIrq, res, lease)
    ensures InPool(l, maxSlots, res)
  {
    ReturnableIsHarmless(l, maxSlots, req, sharedIrq, res, lease);
  }

  /** One release of a session, of any list that was granted, whether it was given back before or not. */
  method DoRelease(m: ResourceManager, resources: seq<Resource>, ghost h: Holding) returns (out: FreeOutcome)
    requires m.Valid() && Backs(m.layout, m.maxSlots, h) && h.resources == resources
    modifies m`view, m.Trees()
    ensures DidRelease(m.layout, resources, old(m.view), out, m.view)
    ensures !out.Panicked? ==> m.Valid()
  {
    hide ResourceManager.Valid, ResourceManager.Sound, Backs, FreeChain, FreeStops, InPool, Layout.WellFormed,
      TypedResource;
    m.ValidParts();
    m.ValidIsSound();
    GrantedInPool(m.layout, m.maxSlots, h);
    ghost var k, ps;
    ghost var p := m.view;
    out, k, ps := m.FreeDeviceResources(resources);
    ChainLength(m.layout, resources, k, ps);
    assert ReleasedUpTo(m.layout, resources, p, out, m.view, k, ps);
  }

  lemma ChainLength(l: Layout, resources: seq<Resource>, k: nat, ps: seq<Pools>)
    requires FreeChain(l, resources, k, ps)
    ensures |ps| == k + 1 && k <= |resources|
  {
  }

  lemma {:induction false} AfterStays(l: Layout, calls: seq<Call>, replies: seq<Reply>, views: seq<Pools>, r: Reply,
                                      v: Pools, n: nat)
    requires n <= |replies| < |calls| && |views| == |replies| + 1
    ensures After(l, calls, replies + [r], views + [v], n) == After(l, calls, replies, views, n)
  {
    hide Booked;
    if n > 0 {
      AfterStays(l, calls, replies, views, r, v, n - 1);
    }
  }

  lemma HappenedNext(l: Layout, maxSlots: nat, calls: seq<Call>, replies: seq<Reply>, views: seq<Pools>, r: Reply,
                     v: Pools)
    requires Happened(l, maxSlots, calls, replies, views) && |replies| < |calls| && !Crashed(replies)
    requires var n := |replies|;
             Did(l, maxSlots, After(l, calls, replies, views, n), views[n], calls[n], r, v)
    ensures Happened(l, maxSlots, calls, replies + [r], views + [v])
    ensures var n := |replies|;
            After(l, calls, replies + [r], views + [v], n + 1) ==
            Booked(l, After(l, calls, replies, views, n), calls[n], r, views[n])
  {
    hide Did, Booked;
    var rs, vs := replies + [r], views + [v];
    forall n: nat | n < |rs|
      ensures Did(l, maxSlots, After(l, calls, rs, vs, n), vs[n], calls[n], rs[n], vs[n + 1])
    {
      AfterStays(l, calls, replies, views, r, v, n);
    }
    AfterStays(l, calls, replies, views, r, v, |replies|);
    assert rs[|replies|] == r && vs[|replies|] == views[|replies|];
  }

  /** A client's own record of a session agrees with the account, and every list in it was granted. */
  ghost predicate Records(l: Layout, maxSlots: nat, a: Account, lists: seq<seq<Resource>>, open: set<nat>) {
    && open == a.open && |lists| == |a.hs| && (forall i <- open :: i < |lists|)
    && (forall i :: 0 <= i < |lists| ==> lists[i] == a.hs[i].resources && Backs(l, maxSlots, a.hs[i]))
  }

  lemma RecordGrant(l: Layout, maxSlots: nat, a: Account, lists: seq<seq<Resource>>, open: set<nat>,
                    requests: seq<ResourceConstraint>, sharedIrq: bool, r: TxResult, p: Pools, p': Pools)
    requires Records(l, maxSlots, a, lists, open) && DidAllocate(l, maxSlots, p, requests, sharedIrq, r, p')
    ensures var b := Booked(l, a, Allocate(requests, sharedIrq), Answered(r), p);
            if r.Granted? then Records(l, maxSlots, b, lists + [r.resources], open + {|lists|})
            else Records(l, maxSlots, b, lists, open)
  {
    hide Lent, Grants, Backed, LeaseSet, Left;
  }

  lemma RecordReturn(l: Layout, maxSlots: nat, a: Account, lists: seq<seq<Resource>>, open: set<nat>, i: nat, r: Reply,
                     p: Pools)
    requires Records(l, maxSlots, a, lists, open)
    ensures Records(l, maxSlots, Booked(l, a, Release(i), r, p), lists, open - {i})
  {
    hide Backs, LeaseSet, Left;
    assert i !in open ==> open - {i} == open;
  }

  lemma FreshRecord(l: Layout, maxSlots: nat, calls: seq<Call>, p: Pools)
    ensures Happened(l, maxSlots, calls, [], [p]) && Records(l, maxSlots, After(l, calls, [], [p], 0), [], {})
  {
  }

  /** Serve any sequence of calls on one manager, up to a crash. The replies and the pools after each are those of the
      calls; `lists` are the granted ones in order and `open` those among them not given back. What that means for
      what is out is `SessionAccounts` and `SessionRestores`. */
  method Serve(m: ResourceManager, calls: seq<Call>)
    returns (replies: seq<Reply>, lists: seq<seq<Resource>>, open: set<nat>, ghost views: seq<Pools>)
    requires m.Valid() && forall i :: 0 <= i < |calls| ==> TypedCall(calls[i])
    modifies m`view, m.Trees()
    ensures Happened(m.layout, m.maxSlots, calls, replies, views) && views[0] == old(m.view)
    ensures |replies| < |calls| ==> Crashed(replies)
    ensures !Crashed(replies) ==> m.Valid() && m.view == views[|replies|]
    ensures var a := After(m.layout, calls, replies, views, |replies|);
            && Records(m.layout, m.maxSlots, a, lists, open)
            && (Proper(m.layout, calls, replies, views, |replies|) && !Crashed(replies) ==>
                  && Lent(old(m.view), a.out, m.view) && Accounts(m.layout, m.maxSlots, a)
                  && (a.out == {} <==> m.view == old(m.view)))
            && (Proper(m.layout, calls, replies, views, |replies|) ==>
                  Sensible(m.layout, m.maxSlots, calls, |replies|) ==>
                  !Crashed(replies) && (open == {} ==> m.view == old(m.view)))
  {
    hide Lent, ResourceManager.Valid, ResourceManager.Sound, Accounts, After, Happened, Records, Proper, Sensible, Did,
      Booked, AllPools, Layout.WellFormed;
    replies, lists, open, views := [], [], {}, [m.view];
    m.ValidParts();
    FreshRecord(m.layout, m.maxSlots, calls, m.view);
    var n := 0;
    while n < |calls| && !Crashed(replies)
      invariant n == |replies| <= |calls| && |views| == n + 1 && views[0] == old(m.view)
      invariant !Crashed(replies) ==> m.Valid() && m.view == views[n]
      invariant Happened(m.layout, m.maxSlots, calls, replies, views)
      invariant Records(m.layout, m.maxSlots, After(m.layout, calls, replies, views, n), lists, open)
      decreases |calls| - n
    {
      ghost var a := After(m.layout, calls, replies, views, n);
      var reply;
      reply, lists, open := ServeOne(m, calls[n], lists, open, a);
      HappenedNext(m.layout, m.maxSlots, calls, replies, views, reply, m.view);
      replies, views, n := replies + [reply], views + [m.view], n + 1;
    }
    if Proper(m.layout, calls, replies, views, n) {
      if !Crashed(replies) {
        SessionAccounts(m.layout, m.maxSlots, calls, replies, views, n);
      }
      if Sensible(m.layout, m.maxSlots, calls, n) {
        SessionRestores(m.layout, m.maxSlots, calls, replies, views);
        RecordsMean(m.layout, m.maxSlots, After(m.layout, calls, replies, views, n), lists, open);
      }
    }
  }

  lemma RecordsMean(l: Layout, maxSlots: nat, a: Account, lists: seq<seq<Resource>>, open: set<nat>)
    requires Records(l, maxSlots, a, lists, open)
    ensures open == a.open && |lists| == |a.hs| && forall i :: 0 <= i < |lists| ==> lists[i] == a.hs[i].resources
  {
  }

  method ServeOne(m: ResourceManager, call: Call, lists: seq<seq<Resource>>, open: set<nat>, ghost a: Account)
    returns (reply: Reply, lists': seq<seq<Resource>>, open': set<nat>)
    requires m.Valid() && TypedCall(call) && Records(m.layout, m.maxSlots, a, lists, open)
    modifies m`view, m.Trees()
    ensures Did(m.layout, m.maxSlots, a, old(m.view), call, reply, m.view)
    ensures !Crashing(reply) ==> m.Valid()
    ensures Records(m.layout, m.maxSlots, Booked(m.layout, a, call, reply, old(m.view)), lists', open')
  {
    hide ResourceManager.Valid, ResourceManager.Sound, DidAllocate, DidRelease, Booked, Typed, Backs;
    ghost var p := m.view;
    lists', open' := lists, open;
    match call {
      case Allocate(requests, sharedIrq) =>
        var r := DoAllocate(m, requests, sharedIrq);
        RecordGrant(m.layout, m.maxSlots, a, lists, open, requests, sharedIrq, r, p, m.view);
        if r.Granted? {
          lists', open' := lists + [r.resources], open + {|lists|};
        }
        reply := Answered(r);
      case Release(i) =>
        if i < |lists| {
          var out := DoRelease(m, lists[i], a.hs[i]);
          reply := Returned(out);
        } else {
          reply := Unknown;
        }
        open' := open - {i};
        RecordReturn(m.layout, m.maxSlots, a, lists, open, i, reply, p);
    }
  }

  lemma InOnePool(p: Pools, out: set<Lease>, q: Pools, id: PoolId)
    requires Lent(p, out, q)
    ensures id in p && id in q && Outstanding(p[id], out, id, q[id]) && Pool(p[id]) && Pool(q[id])
  {
  }

  /** Giving a range back again that came out of the free space: the pools stay as they are just when it is not leased
      out to somebody by now. */
  lemma GivenBackTwice(p: Pools, out: set<Lease>, q: Pools, id: PoolId, r: Range, m: Contents<()>)
    requires Lent(p, out, q) && r.WellFormed() && id in p && (forall x :: r.Has(x) ==> FreeAt(p[id], x))
    requires id in q && Releasable(q[id], r) && Released(q[id], r, m)
    ensures q[id := m] == q <==> !LeasedOut(out, id, r)
  {
    hide Lent, Releasable, Released, Outstanding, LeasedOut, Pool, FreeAt;
    InOnePool(p, out, q, id);
    StoredAsIs(p[id], out, q[id], id, r);
    if q[id][r].Free? {
      FreedAgain(p[id], out, q[id], id, r, m);
    } else {
      TakenAway(p[id], out, q[id], id, r, m);
    }
  }

  ghost predicate LeasedOut(out: set<Lease>, id: PoolId, r: Range) {
    exists l <- out :: l.pool == id && l.range == r
  }

  /** A range that was free at the start and meets no other stored range is stored itself. */
  lemma StoredAsIs(m0: Contents<()>, out: set<Lease>, m1: Contents<()>, id: PoolId, r: Range)
    requires Outstanding(m0, out, id, m1) && r.WellFormed() && (forall x :: r.Has(x) ==> FreeAt(m0, x))
    requires Releasable(m1, r)
    ensures r in m1
  {
    assert r.Has(r.min);
    if FreeAt(m1, r.min) {
      var k :| k in m1 && m1[k].Free? && k.Has(r.min);
      assert k.Intersects(r);
    } else {
      assert Covered(out, id, r.min);
      var l :| l in out && l.pool == id && l.range.Has(r.min);
      assert l.range in Held(m1) && l.range.Intersects(r);
    }
  }

  lemma FreedAgain(m0: Contents<()>, out: set<Lease>, m1: Contents<()>, id: PoolId, r: Range, m: Contents<()>)
    requires Outstanding(m0, out, id, m1) && Pool(m1) && r in m1 && m1[r].Free? && Released(m1, r, m)
    ensures m == m1 && !LeasedOut(out, id, r)
  {
    hide FreeBut;
    assert r !in Held(m1);
    assert HeldExcept(m1, r) == Held(m1);
    forall x | r.Has(x)
      ensures FreeAt(m1, x)
    {
    }
    hide HeldPlus, Held, Disjoint, Coalesced;
    NormalForm(m, m1);
  }

  lemma TakenAway(m0: Contents<()>, out: set<Lease>, m1: Contents<()>, id: PoolId, r: Range, m: Contents<()>)
    requires Outstanding(m0, out, id, m1) && Pool(m0) && r in m1 && !m1[r].Free? && Released(m1, r, m)
    requires r.WellFormed() && forall x :: r.Has(x) ==> FreeAt(m0, x)
    ensures m != m1 && LeasedOut(out, id, r)
  {
    assert r in Held(m1) && r !in HeldExcept(m1, r);
    LeaseNotHeld(m0, r);
    assert Lease(id, r, Held(m1)[r]) in out;
  }

  const PORT := PioAddress(None, 1, 1)

  const TAKE := Allocate([PORT], false)

  /** What a client holds who took the first port of pools whose ports are all free. */
  ghost function PortHeld(l: Layout, p: Pools): Holding {
    Holding([PioAddressRange(0, 1)], [PORT], false, Grants(l, false, p, [PORT]))
  }

  lemma PortTaken(l: Layout, maxSlots: nat, p: Pools, a: Account, reply: Reply, q: Pools)
    requires Did(l, maxSlots, a, p, TAKE, reply, q) && PioPool in p && p[PioPool] == OneRange(0, PIO_MAX)
    ensures var h, b := PortHeld(l, p), Booked(l, a, TAKE, reply, p);
            && reply == Answered(TxResult.Granted(h.resources))
            && b.hs == a.hs + [h] && b.open == a.open + {|a.hs|}
            && Backs(l, maxSlots, h) && AllHarmless(l, h.leases) && Lent(p, LeaseSet(h.leases), q)
  {
    hide Lent, Stuck, OneRange, Grants;
    var g := Grants(l, false, p, [PORT]);
    FirstPort(l, maxSlots, p, [PORT], g);
    assert Answers(l, maxSlots, PORT, false, reply.r.resources[0], g[0]);
  }

  /** The list of the first who took the port takes it from whoever has it. */
  lemma PortGiven(l: Layout, maxSlots: nat, p: Pools, a: Account, q: Pools, reply: Reply, q': Pools)
    requires l.WellFormed() && maxSlots <= U32_MAX && a.hs != [] && a.hs[0] == PortHeld(l, p)
    requires Backs(l, maxSlots, a.hs[0]) && AllHarmless(l, a.hs[0].leases) && Lent(p, LeaseSet(a.hs[0].leases), q)
    requires Did(l, maxSlots, a, q, Release(0), reply, q')
    ensures var b := Booked(l, a, Release(0), reply, q);
            reply == Returned(Freed) && q' == p && b.hs == a.hs && b.open == a.open - {0}
  {
    hide Lent, Backs, LeaseSet, DidRelease, Layout.WellFormed, AllHarmless, Left, PortHeld;
    var h := a.hs[0];
    assert {} + LeaseSet(h.leases) == LeaseSet(h.leases);
    ReleaseStops(l, maxSlots, h, p, {}, q, reply.out, q');
    HarmlessLeavesNothing(l, h.leases);
    assert {} + Left(l, h.leases) == {};
    NothingLent(p, q');
    assert 0 !in a.open ==> a.open - {0} == a.open;
  }

  /** The first client's list is given back a second time after the port went to another. */
  const TWICE := [TAKE, Release(0), TAKE, Release(0), TAKE]

  /** After `n` of these calls every list so far is the same, and after an even number all ports are free again. */
  ghost predicate PortState(l: Layout, maxSlots: nat, p: Pools, n: nat, a: Account, q: Pools) {
    var h := PortHeld(l, p);
    && |a.hs| == (n + 1) / 2 && (forall i :: 0 <= i < |a.hs| ==> a.hs[i] == h)
    && a.open == (if n in {0, 2} then {} else if n == 1 then {0} else if n in {3, 4} then {1} else {1, 2})
    && (n > 0 ==> Backs(l, maxSlots, h) && AllHarmless(l, h.leases))
    && (if n % 2 == 0 then q == p else Lent(p, LeaseSet(h.leases), q))
  }

  lemma PortStep(l: Layout, maxSlots: nat, p: Pools, n: nat, a: Account, q: Pools, reply: Reply, q': Pools)
    requires l.WellFormed() && maxSlots <= U32_MAX && n < 5 && PortState(l, maxSlots, p, n, a, q)
    requires PioPool in p && p[PioPool] == OneRange(0, PIO_MAX) && Did(l, maxSlots, a, q, TWICE[n], reply, q')
    ensures !Crashing(reply) && PortState(l, maxSlots, p, n + 1, Booked(l, a, TWICE[n], reply, q), q')
  {
    hide Lent, Backs, LeaseSet, Layout.WellFormed, AllHarmless, PortHeld, Did, Booked, OneRange;
    if n % 2 == 0 {
      PortTaken(l, maxSlots, p, a, reply, q');
    } else {
      PortGiven(l, maxSlots, p, a, q, reply, q');
    }
  }

  lemma {:induction false} PortTwice(l: Layout, maxSlots: nat, replies: seq<Reply>, views: seq<Pools>, n: nat)
    requires l.WellFormed() && maxSlots <= U32_MAX && Happened(l, maxSlots, TWICE, replies, views) && n <= |replies|
    requires PioPool in views[0] && views[0][PioPool] == OneRange(0, PIO_MAX)
    ensures n > 0 ==> !Crashing(replies[n - 1])
    ensures PortState(l, maxSlots, views[0], n, After(l, TWICE, replies, views, n), views[n])
    decreases n
  {
    hide Layout.WellFormed, Did, Booked, OneRange;
    if n > 0 {
      hide PortState;
      PortTwice(l, maxSlots, replies, views, n - 1);
      PortStep(l, maxSlots, views[0], n - 1, After(l, TWICE, replies, views, n - 1), views[n - 1], replies[n - 1],
               views[n]);
    }
  }

  /** Two clients hold port 0 at once, because a third gave back again what it had no more. */
  method PortSharedByTwo(l: Layout)
    returns (m: ResourceManager, lists: seq<seq<Resource>>, open: set<nat>, replies: seq<Reply>,
             ghost views: seq<Pools>)
    requires l.WellFormed()
    ensures Happened(l, m.maxSlots, TWICE, replies, views) && |replies| == 5
    ensures open == {1, 2} && |lists| == 3 && lists[1] == lists[2] == [PioAddressRange(0, 1)]
  {
    hide Lent, ResourceManager.Valid, ResourceManager.Sound, OneRange, FreshMem, FreshMmio, Layout.WellFormed, Accounts,
      Proper, Sensible, After, Records, Backs, Did;
    m := ResourceManager.New(l, 0);
    replies, lists, open, views := Serve(m, TWICE);
    PortTwice(l, m.maxSlots, replies, views, |replies|);
    RecordsMean(l, m.maxSlots, After(l, TWICE, replies, views, 5), lists, open);
  }
}
