/** What a set of outstanding grants means for the six resource pools. */
module Leases {
  import opened Wrappers
  import opened Ranges
  import opened IntervalNodes
  import opened IntervalTrees

  datatype PoolId = LegacyIrqPool | MsiIrqPool | PioPool | MmioPool | MemPool | KvmSlotPool

  type Pools = map<PoolId, Contents<()>>

  ghost predicate AllPools(p: Pools) {
    (forall id: PoolId :: id in p) && (forall id :: id in p ==> Pool(p[id]))
  }

  /** A range taken out of a pool, with the state the pool records for it. */
  datatype Lease = Lease(pool: PoolId, range: Range, state: NodeState<()>)

  ghost predicate Covered(ls: set<Lease>, id: PoolId, x: int) {
    exists l :: l in ls && l.pool == id && l.range.Has(x)
  }

  ghost predicate Apart(ls: set<Lease>) {
    forall a, b :: a in ls && b in ls && a != b && a.pool == b.pool ==>
        a.range.max < b.range.min || b.range.max < a.range.min
  }

  ghost predicate FromFree(p: Pools, ls: set<Lease>)
    requires AllPools(p)
  {
    && (forall l :: l in ls ==> l.range.WellFormed() && !l.state.Free?)
    && (forall l, x :: l in ls && l.range.Has(x) ==> FreeAt(p[l.pool], x))
  }

  ghost predicate FreeBut(m: Contents<()>, ls: set<Lease>, id: PoolId, m': Contents<()>) {
    forall x :: FreeAt(m', x) <==> FreeAt(m, x) && !Covered(ls, id, x)
  }

  ghost predicate HeldPlus(m: Contents<()>, ls: set<Lease>, id: PoolId, m': Contents<()>) {
    && (forall k :: k in Held(m) ==> k in Held(m') && Held(m')[k] == Held(m)[k])
    && (forall l :: l in ls && l.pool == id ==> l.range in Held(m') && Held(m')[l.range] == l.state)
    && (forall k :: k in Held(m') ==> k in Held(m) || Lease(id, k, Held(m')[k]) in ls)
  }

  ghost predicate Outstanding(m: Contents<()>, ls: set<Lease>, id: PoolId, m': Contents<()>) {
    FreeBut(m, ls, id, m') && HeldPlus(m, ls, id, m')
  }

  lemma Reassemble(p: Pools, ls: set<Lease>, p': Pools, id0: PoolId, m: Contents<()>)
    requires AllPools(p) && AllPools(p') && Pool(m) && Apart(ls) && FromFree(p, ls)
    requires forall id :: id in p ==> Outstanding(p[id], ls, id, if id == id0 then m else p'[id])
    ensures Lent(p, ls, p'[id0 := m])
  {
    var q := p'[id0 := m];
    forall id | id in p
      ensures Outstanding(p[id], ls, id, q[id])
    {
    }
  }

  /** `p'` is `p` with exactly the leases `ls` outstanding. */
  ghost predicate Lent(p: Pools, ls: set<Lease>, p': Pools) {
    && AllPools(p) && AllPools(p') && Apart(ls) && FromFree(p, ls)
    && (forall id :: id in p ==> Outstanding(p[id], ls, id, p'[id]))
  }

  /** With nothing outstanding the pools are what they were, range by range. */
  lemma NothingLent(p: Pools, p': Pools)
    requires Lent(p, {}, p')
    ensures p' == p
  {
    forall id | id in p
      ensures p'[id] == p[id]
    {
      NothingLentIn(p[id], id, p'[id]);
    }
  }

  lemma NothingLentIn(m: Contents<()>, id: PoolId, m': Contents<()>)
    requires Pool(m) && Pool(m') && FreeBut(m, {}, id, m') && HeldPlus(m, {}, id, m')
    ensures m' == m
  {
    assert forall x :: !Covered({}, id, x);
    assert Held(m') == Held(m);
    NormalForm(m', m);
  }

  lemma LendNothing(p: Pools)
    requires AllPools(p)
    ensures Lent(p, {}, p)
  {
  }

  /** A range that is free now was free before, and meets no outstanding lease. */
  lemma FreshLease(p: Pools, ls: set<Lease>, p': Pools, l: Lease)
    requires Lent(p, ls, p') && l.range.WellFormed()
    requires forall x :: l.range.Has(x) ==> FreeAt(p'[l.pool], x)
    ensures forall x :: l.range.Has(x) ==> FreeAt(p[l.pool], x)
    ensures forall a :: a in ls && a.pool == l.pool ==> a.range.max < l.range.min || l.range.max < a.range.min
  {
    assert l.pool in p && Outstanding(p[l.pool], ls, l.pool, p'[l.pool]);
    forall a | a in ls && a.pool == l.pool
      ensures a.range.max < l.range.min || l.range.max < a.range.min
    {
      var x := Max(a.range.min, l.range.min);
      if x <= a.range.max && x <= l.range.max {
        assert l.range.Has(x) && FreeAt(p'[l.pool], x) && a.range.Has(x);
        assert Covered(ls, l.pool, x);
        assert false;
      }
    }
  }

  lemma LendFree(m: Contents<()>, ls: set<Lease>, id: PoolId, m': Contents<()>, l: Lease, m'': Contents<()>)
    requires FreeBut(m, ls, id, m') && id == l.pool
    requires forall x :: FreeAt(m'', x) <==> FreeAt(m', x) && !l.range.Has(x)
    ensures FreeBut(m, ls + {l}, id, m'')
  {
    forall x
      ensures Covered(ls + {l}, id, x) <==> Covered(ls, id, x) || l.range.Has(x)
    {
      assert l in ls + {l};
      assert forall a :: a in ls ==> a in ls + {l};
    }
  }

  lemma LendHeld(m: Contents<()>, ls: set<Lease>, id: PoolId, m': Contents<()>, l: Lease, m'': Contents<()>)
    requires HeldPlus(m, ls, id, m') && id == l.pool
    requires l.range !in Held(m') && Held(m'') == Held(m')[l.range := l.state]
    ensures HeldPlus(m, ls + {l}, id, m'')
  {
  }

  lemma LendElsewhere(m: Contents<()>, ls: set<Lease>, id: PoolId, m': Contents<()>, l: Lease)
    requires id != l.pool && FreeBut(m, ls, id, m') && HeldPlus(m, ls, id, m')
    ensures FreeBut(m, ls + {l}, id, m') && HeldPlus(m, ls + {l}, id, m')
    ensures FreeBut(m, ls - {l}, id, m') && HeldPlus(m, ls - {l}, id, m')
  {
    forall x
      ensures Covered(ls + {l}, id, x) <==> Covered(ls, id, x)
      ensures Covered(ls - {l}, id, x) <==> Covered(ls, id, x)
    {
      assert forall a :: a in ls && a.pool == id ==> a in ls + {l} && a in ls - {l};
    }
  }

  lemma LendApart(p: Pools, ls: set<Lease>, p': Pools, l: Lease)
    requires Lent(p, ls, p') && l.range.WellFormed() && !l.state.Free?
    requires forall x :: l.range.Has(x) ==> FreeAt(p'[l.pool], x)
    ensures l !in ls && Apart(ls + {l}) && FromFree(p, ls + {l})
  {
    FreshLease(p, ls, p', l);
  }

  lemma LendIn(m: Contents<()>, ls: set<Lease>, id: PoolId, m': Contents<()>, l: Lease, m'': Contents<()>)
    requires Outstanding(m, ls, id, m')
    requires if id == l.pool then Granted(m', l.range, l.state, m'') else m'' == m'
    ensures Outstanding(m, ls + {l}, id, m'')
  {
    if id == l.pool {
      LendFree(m, ls, id, m', l, m'');
      LendHeld(m, ls, id, m', l, m'');
    } else {
      LendElsewhere(m, ls, id, m', l);
    }
  }

  /** Granting one more lease. */
  lemma LendOne(p: Pools, ls: set<Lease>, p': Pools, l: Lease, m: Contents<()>)
    requires Lent(p, ls, p') && l.range.WellFormed() && !l.state.Free?
    requires forall x :: l.range.Has(x) ==> FreeAt(p'[l.pool], x)
    requires Granted(p'[l.pool], l.range, l.state, m)
    ensures l !in ls && Lent(p, ls + {l}, p'[l.pool := m])
  {
    LendApart(p, ls, p', l);
    forall id | id in p
      ensures Outstanding(p[id], ls + {l}, id, if id == l.pool then m else p'[id])
    {
      LendIn(p[id], ls, id, p'[id], l, if id == l.pool then m else p'[id]);
    }
    Reassemble(p, ls + {l}, p', l.pool, m);
  }

  lemma ReturnFree(m: Contents<()>, ls: set<Lease>, id: PoolId, m': Contents<()>, l: Lease, m'': Contents<()>)
    requires FreeBut(m, ls, id, m') && id == l.pool && l in ls && Apart(ls)
    requires forall x :: l.range.Has(x) ==> FreeAt(m, x)
    requires forall x :: FreeAt(m'', x) <==> FreeAt(m', x) || l.range.Has(x)
    ensures FreeBut(m, ls - {l}, id, m'')
  {
    forall x
      ensures Covered(ls - {l}, id, x) <==> Covered(ls, id, x) && !l.range.Has(x)
    {
      if Covered(ls, id, x) && !l.range.Has(x) {
        var a :| a in ls && a.pool == id && a.range.Has(x);
        assert a in ls - {l};
      }
    }
  }

  lemma ReturnHeld(m: Contents<()>, ls: set<Lease>, id: PoolId, m': Contents<()>, l: Lease, m'': Contents<()>)
    requires HeldPlus(m, ls, id, m') && id == l.pool && l in ls && Apart(ls)
    requires forall a :: a in ls ==> a.range.WellFormed()
    requires l.range !in Held(m) && Held(m'') == HeldExcept(m', l.range)
    ensures HeldPlus(m, ls - {l}, id, m'')
  {
    assert forall k :: k in Held(m'') <==> k in Held(m') && k != l.range;
    assert forall k :: k in Held(m'') ==> Held(m'')[k] == Held(m')[k];
    assert forall a :: a in ls && a.pool == id && a.range == l.range ==> a == l;
  }

  /** A leased range was not already held by someone else. */
  lemma LeaseNotHeld(m: Contents<()>, r: Range)
    requires Disjoint(m) && r.WellFormed() && forall x :: r.Has(x) ==> FreeAt(m, x)
    ensures r !in Held(m)
  {
    assert r.Has(r.min) && FreeAt(m, r.min);
    var k :| k in m && m[k].Free? && k.Has(r.min);
  }

  /** Giving one lease back, whatever its place among the outstanding ones. */
  lemma ReturnOne(p: Pools, ls: set<Lease>, p': Pools, l: Lease, m: Contents<()>)
    requires Lent(p, ls, p') && l in ls && Released(p'[l.pool], l.range, m)
    ensures Lent(p, ls - {l}, p'[l.pool := m])
  {
    assert Apart(ls - {l}) && FromFree(p, ls - {l});
    forall id | id in p
      ensures Outstanding(p[id], ls - {l}, id, if id == l.pool then m else p'[id])
    {
      ReturnIn(p[id], ls, id, p'[id], l, if id == l.pool then m else p'[id]);
    }
    Reassemble(p, ls - {l}, p', l.pool, m);
  }

  lemma ReturnIn(m: Contents<()>, ls: set<Lease>, id: PoolId, m': Contents<()>, l: Lease, m'': Contents<()>)
    requires Disjoint(m) && FreeBut(m, ls, id, m') && HeldPlus(m, ls, id, m') && l in ls && Apart(ls)
    requires forall a :: a in ls ==> a.range.WellFormed()
    requires id == l.pool ==> forall x :: l.range.Has(x) ==> FreeAt(m, x)
    requires if id == l.pool then Released(m', l.range, m'') else m'' == m'
    ensures Outstanding(m, ls - {l}, id, m'')
  {
    if id == l.pool {
      LeaseNotHeld(m, l.range);
      ReturnFree(m, ls, id, m', l, m'');
      ReturnHeld(m, ls, id, m', l, m'');
    } else {
      LendElsewhere(m, ls, id, m', l);
    }
  }

  /** An outstanding lease can always be taken back. */
  lemma LeaseReleasable(p: Pools, ls: set<Lease>, p': Pools, l: Lease)
    requires Lent(p, ls, p') && l in ls
    ensures l.range in p'[l.pool] && Releasable(p'[l.pool], l.range)
  {
    assert l.pool in p && Outstanding(p[l.pool], ls, l.pool, p'[l.pool]);
    assert l.range in Held(p'[l.pool]);
  }

  /** With something outstanding the pools are not what they were. */
  lemma LentIsChanged(p: Pools, ls: set<Lease>, p': Pools)
    requires Lent(p, ls, p') && ls != {}
    ensures p' != p
  {
    var l :| l in ls;
    assert l.pool in p && Outstanding(p[l.pool], ls, l.pool, p'[l.pool]);
    LeaseNotHeld(p[l.pool], l.range);
  }

  lemma ComposeIn(m: Contents<()>, a: set<Lease>, id: PoolId, m': Contents<()>, b: set<Lease>, m'': Contents<()>)
    requires Outstanding(m, a, id, m') && Outstanding(m', b, id, m'')
    ensures Outstanding(m, a + b, id, m'')
  {
    ComposeFree(m, a, id, m', b, m'');
    ComposeHeld(m, a, id, m', b, m'');
  }

  lemma ComposeFree(m: Contents<()>, a: set<Lease>, id: PoolId, m': Contents<()>, b: set<Lease>, m'': Contents<()>)
    requires FreeBut(m, a, id, m') && FreeBut(m', b, id, m'')
    ensures FreeBut(m, a + b, id, m'')
  {
    hide FreeAt;
    forall x
      ensures Covered(a + b, id, x) <==> Covered(a, id, x) || Covered(b, id, x)
    {
      if Covered(a, id, x) {
        var l :| l in a && l.pool == id && l.range.Has(x);
        assert l in a + b;
      }
      if Covered(b, id, x) {
        var l :| l in b && l.pool == id && l.range.Has(x);
        assert l in a + b;
      }
    }
  }

  lemma ComposeHeld(m: Contents<()>, a: set<Lease>, id: PoolId, m': Contents<()>, b: set<Lease>, m'': Contents<()>)
    requires HeldPlus(m, a, id, m') && HeldPlus(m', b, id, m'')
    ensures HeldPlus(m, a + b, id, m'')
  {
    hide Held;
  }

  /** Leases taken out later are free of those taken out before, and come out of the same initial space. */
  lemma LaterApart(p: Pools, a: set<Lease>, q: Pools, b: set<Lease>)
    requires Lent(p, a, q) && Apart(b) && FromFree(q, b)
    ensures Apart(a + b) && FromFree(p, a + b) && a !! b
  {
    hide Outstanding, Pool, FreeAt;
    forall l | l in b
      ensures forall x :: l.range.Has(x) ==> FreeAt(p[l.pool], x)
      ensures forall k :: k in a && k.pool == l.pool ==> k.range.max < l.range.min || l.range.max < k.range.min
      ensures l !in a
    {
      FreshLease(p, a, q, l);
    }
  }

  /** Accounts add up: leases outstanding since `p`, and more since then. */
  lemma LentCompose(p: Pools, a: set<Lease>, q: Pools, b: set<Lease>, r: Pools)
    requires Lent(p, a, q) && Lent(q, b, r)
    ensures Lent(p, a + b, r) && a !! b
  {
    hide Outstanding, Pool, FreeAt, Apart, FromFree;
    LaterApart(p, a, q, b);
    forall id | id in p
      ensures Outstanding(p[id], a + b, id, r[id])
    {
      ComposeIn(p[id], a, id, q[id], b, r[id]);
    }
  }

  datatype Event = Grant(lease: Lease) | GiveBack(lease: Lease)

  /** One step of a run over the pools: something is granted, or an outstanding lease comes back. */
  ghost predicate Step(p: Pools, ls: set<Lease>, e: Event, p': Pools, ls': set<Lease>)
    requires AllPools(p)
  {
    match e
    case Grant(l) =>
      && l.range.WellFormed() && !l.state.Free? && ls' == ls + {l}
      && (forall x :: l.range.Has(x) ==> FreeAt(p[l.pool], x))
      && (exists m :: Granted(p[l.pool], l.range, l.state, m) && p' == p[l.pool := m])
    case GiveBack(l) =>
      && l in ls && ls' == ls - {l}
      && (exists m :: Released(p[l.pool], l.range, m) && p' == p[l.pool := m])
  }

  ghost predicate Run(es: seq<Event>, ps: seq<Pools>, lss: seq<set<Lease>>) {
    && |ps| == |lss| == |es| + 1 && lss[0] == {} && (forall i :: 0 <= i < |ps| ==> AllPools(ps[i]))
    && (forall i :: 0 <= i < |es| ==> Step(ps[i], lss[i], es[i], ps[i + 1], lss[i + 1]))
  }

  /** In every state of every run the outstanding leases are pairwise disjoint and lie in the initial free
      space; and whenever they have all come back the pools are exactly the initial ones. */
  lemma {:induction false} RunsConserve(es: seq<Event>, ps: seq<Pools>, lss: seq<set<Lease>>, i: nat)
    requires Run(es, ps, lss) && i <= |es|
    ensures Lent(ps[0], lss[i], ps[i])
    ensures lss[i] == {} <==> ps[i] == ps[0]
    decreases i
  {
    hide Lent, Granted, Released, Pool;
    if i == 0 {
      LendNothing(ps[0]);
    } else {
      RunsConserve(es, ps, lss, i - 1);
      var p, ls, l := ps[i - 1], lss[i - 1], es[i - 1].lease;
      assert Step(p, ls, es[i - 1], ps[i], lss[i]);
      if es[i - 1].Grant? {
        var m :| Granted(p[l.pool], l.range, l.state, m) && ps[i] == p[l.pool := m];
        LendOne(ps[0], ls, p, l, m);
      } else {
        var m :| Released(p[l.pool], l.range, m) && ps[i] == p[l.pool := m];
        ReturnOne(ps[0], ls, p, l, m);
      }
    }
    if lss[i] == {} {
      NothingLent(ps[0], ps[i]);
    } else {
      LentIsChanged(ps[0], lss[i], ps[i]);
    }
  }
}
