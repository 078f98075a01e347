/** The guest physical address map and the fixed interrupt ranges, kept symbolic. */
module Layouts {
  import opened Ranges

  const MSI_IRQ_MAX: nat := 1023
  const PIO_MAX: nat := 0xffff
  const U32_MAX: nat := 0xffff_ffff
  const MMIO_SPACE_RESERVED: nat := 0x400_0000

  datatype Layout = Layout(guestMemStart: nat, guestMemEnd: nat, guestPhysEnd: nat, mmioLowStart: nat, mmioLowEnd: nat,
                           irqBase: nat, irqMax: nat, msiBase: nat, reserveMmio: bool) {
    /** The orderings that the layouts of both architectures share. */
    predicate WellFormed() {
      && guestMemStart <= guestMemEnd < guestPhysEnd < U64_MAX
      && mmioLowStart <= mmioLowEnd < guestMemEnd
      && (guestMemStart <= mmioLowStart || mmioLowEnd < guestMemStart)
      && irqBase < irqMax <= U32_MAX
      && msiBase <= MSI_IRQ_MAX
      && (reserveMmio ==> mmioLowStart + MMIO_SPACE_RESERVED <= mmioLowEnd <= 0xffff_ffff)
    }

    /** Guest memory and the low MMIO window share no address. */
    predicate HoleAvoided() {
      guestMemEnd < mmioLowStart || guestMemStart > mmioLowEnd || mmioLowStart == mmioLowEnd
    }
  }
}

/** The VMM's resource manager: six pools, single allocations and the per-device transaction. */
module ResourceManagers {
  import opened Wrappers
  import opened Ranges
  import opened IntervalNodes
  import opened IntervalTrees
  import opened Layouts
  import opened Leases

  datatype ResourceConstraint =
    | PioAddress(range: Option<(nat, nat)>, align: nat, size: nat)
    | MmioAddress(range: Option<(nat, nat)>, align: nat, size: nat)
    | MemAddress(range: Option<(nat, nat)>, align: nat, size: nat)
    | LegacyIrq(irq: Option<nat>)
    | PciMsiIrq(size: nat)
    | PciMsixIrq(size: nat)
    | GenericIrq(size: nat)
    | KvmMemSlot(slot: Option<nat>, size: nat)

  datatype MsiIrqType = PciMsi | PciMsix | GenericMsi

  datatype Resource =
    | PioAddressRange(base: nat, size: nat)
    | MmioAddressRange(base: nat, size: nat)
    | MemAddressRange(base: nat, size: nat)
    | LegacyIrq(irq: nat)
    | MsiIrq(ty: MsiIrqType, base: nat, size: nat)
    | KvmMemSlot(slot: nat)
    | MacAddress(mac: string)

  datatype ResourceError = InvalidResourceRange(kind: PoolId) | NoAvailResource

  /** The fields fit the integer types that the request is declared with. */
  predicate Typed(req: ResourceConstraint) {
    match req
    case PioAddress(range, align, size) => Bounded(range, 0xffff) && align <= 0xffff && size <= 0xffff
    case MmioAddress(range, align, size) => Bounded(range, U64_MAX) && align <= U64_MAX && size <= U64_MAX
    case MemAddress(range, align, size) => Bounded(range, U64_MAX) && align <= U64_MAX && size <= U64_MAX
    case LegacyIrq(irq) => irq.Some? ==> irq.value <= U32_MAX
    case PciMsiIrq(size) => size <= U32_MAX
    case PciMsixIrq(size) => size <= U32_MAX
    case GenericIrq(size) => size <= U32_MAX
    case KvmMemSlot(slot, size) => (slot.Some? ==> slot.value <= U32_MAX) && size <= U32_MAX
  }

  predicate Bounded(range: Option<(nat, nat)>, top: nat) {
    range.Some? ==> range.value.0 <= top && range.value.1 <= top
  }

  /** What a request asks of the pools. */
  datatype Demand = SharedIrq | Never | From(pool: PoolId, c: Constraint, state: NodeState<()>)

  function AddressDemand(size: nat, align: nat, range: Option<(nat, nat)>): Constraint {
    if range.Some? then Constraint(size, range.value.0, range.value.1, align) else Constraint(size, 0, U64_MAX, align)
  }

  /** Address ranges stay `Allocated`; the other pools mark their grants with a value. */
  function DemandOf(l: Layout, req: ResourceConstraint, sharedIrq: bool): Demand {
    match req
    case PioAddress(range, align, size) => From(PioPool, AddressDemand(size, align, range), Valued(()))
    case MmioAddress(range, align, size) => From(MmioPool, AddressDemand(size, align, range), Allocated)
    case MemAddress(range, align, size) => From(MemPool, AddressDemand(size, align, range), Allocated)
    case LegacyIrq(irq) =>
      if sharedIrq then SharedIrq
      else if irq.None? then From(LegacyIrqPool, AnyOf(1), Valued(()))
      else if irq.value == l.irqBase then Never
      else From(LegacyIrqPool, Constraint(1, irq.value, irq.value, 1), Valued(()))
    case PciMsiIrq(size) => From(MsiIrqPool, Constraint(size, 0, U64_MAX, size), Valued(()))
    case PciMsixIrq(size) => From(MsiIrqPool, AnyOf(size), Valued(()))
    case GenericIrq(size) => From(MsiIrqPool, AnyOf(size), Valued(()))
    case KvmMemSlot(slot, size) =>
      From(KvmSlotPool, if slot.Some? then Constraint(size, slot.value, slot.value, 1) else AnyOf(size), Valued(()))
  }

  /** The descriptor handed to the device for a grant that starts at `base`. */
  function Describe(req: ResourceConstraint, base: nat): Resource {
    match req
    case PioAddress(_, _, size) => PioAddressRange(base, size)
    case MmioAddress(_, _, size) => MmioAddressRange(base, size)
    case MemAddress(_, _, size) => MemAddressRange(base, size)
    case LegacyIrq(_) => Resource.LegacyIrq(base)
    case PciMsiIrq(size) => MsiIrq(PciMsi, base, size)
    case PciMsixIrq(size) => MsiIrq(PciMsix, base, size)
    case GenericIrq(size) => MsiIrq(GenericMsi, base, size)
    case KvmMemSlot(_, _) => Resource.KvmMemSlot(base)
  }

  /** What the checks of the `free_*` functions decide before touching a pool. */
  datatype Route = Nowhere | Refuse(kind: PoolId) | BadRange | Into(pool: PoolId, range: Range)

  function AddressRoute(pool: PoolId, base: nat, size: nat): Route {
    if size == 0 then BadRange else Into(pool, Range(base, base + size - 1))
  }

  function RouteOf(l: Layout, res: Resource): Route {
    match res
    case PioAddressRange(base, size) =>
      if base + size > 0xffff then Refuse(PioPool) else AddressRoute(PioPool, base, size)
    case MmioAddressRange(base, size) =>
      if base + size > U64_MAX then Refuse(MmioPool) else AddressRoute(MmioPool, base, size)
    case MemAddressRange(base, size) =>
      if base + size > U64_MAX || base < l.guestMemStart || base + size > l.guestMemEnd then Refuse(MemPool)
      else AddressRoute(MemPool, base, size)
    case LegacyIrq(irq) =>
      if irq == l.irqBase then Nowhere
      else if !(l.irqBase <= irq <= l.irqMax) then Refuse(LegacyIrqPool)
      else Into(LegacyIrqPool, Range(irq, irq))
    case MsiIrq(_, base, size) =>
      if base < l.msiBase || size == 0 || base + size > U32_MAX || base + size - 1 > MSI_IRQ_MAX then Refuse(MsiIrqPool)
      else Into(MsiIrqPool, Range(base, base + size - 1))
    case KvmMemSlot(slot) => Into(KvmSlotPool, Range(slot, slot))
    case MacAddress(_) => Nowhere
  }

  /** The addresses a pool may ever hold. */
  function Bounds(l: Layout, maxSlots: nat, id: PoolId): Range {
    match id
    case LegacyIrqPool => Range(l.irqBase + 1, l.irqMax)
    case MsiIrqPool => Range(l.msiBase, MSI_IRQ_MAX)
    case PioPool => Range(0, PIO_MAX)
    case MmioPool => Range(l.mmioLowStart, l.guestPhysEnd)
    case MemPool => Range(l.guestMemStart, l.guestMemEnd)
    case KvmSlotPool => Range(0, maxSlots)
  }

  ghost predicate InBounds(m: Contents<()>, b: Range) {
    forall k :: k in m ==> b.Contains(k)
  }

  lemma BoundsKept(m: Contents<()>, m': Contents<()>, g: Range, b: Range)
    requires InBounds(m, b) && Disjoint(m') && b.Contains(g) && g.WellFormed()
    requires forall x :: FreeAt(m', x) ==> FreeAt(m, x) || g.Has(x)
    requires forall k :: k in Held(m') ==> k in Held(m) || k == g
    ensures InBounds(m', b)
  {
    forall k | k in m'
      ensures b.Contains(k)
    {
      if m'[k].Free? {
        assert k.Has(k.min) && k.Has(k.max);
        assert FreeAt(m', k.min) && FreeAt(m', k.max);
      } else {
        assert k in Held(m');
      }
    }
  }

  /** A grant, as the method that made it reports it: the descriptor and the lease behind it, if any. */
  ghost predicate Answers(l: Layout, maxSlots: nat, req: ResourceConstraint, sharedIrq: bool, res: Resource,
                          lease: Option<Lease>) {
    match DemandOf(l, req, sharedIrq)
    case SharedIrq => res == Resource.LegacyIrq(l.irqBase) && lease.None?
    case Never => false
    case From(id, c, state) =>
      && lease.Some? && lease.value.pool == id && lease.value.state == state
      && c.Allows(lease.value.range) && Bounds(l, maxSlots, id).Contains(lease.value.range)
      && res == Describe(req, lease.value.range.min)
  }

  type Values = iset<(PoolId, int)>

  /** All numbers and addresses that can still be handed out. */
  ghost function FreeValues(p: Pools): Values {
    iset id: PoolId, x: int | id in p && FreeAt(p[id], x) :: (id, x)
  }

  ghost function Run(id: PoolId, first: nat, n: nat): Values {
    iset x: int | first <= x < first + n :: (id, x)
  }

  /** What a descriptor handed out for a request takes up. A run of KVM slots is known by its first. */
  ghost function Occupied(req: ResourceConstraint, sharedIrq: bool, res: Resource): Values {
    match res
    case PioAddressRange(base, size) => Run(PioPool, base, size)
    case MmioAddressRange(base, size) => Run(MmioPool, base, size)
    case MemAddressRange(base, size) => Run(MemPool, base, size)
    case LegacyIrq(irq) => if sharedIrq then iset{} else iset{(LegacyIrqPool, irq)}
    case MsiIrq(_, base, size) => Run(MsiIrqPool, base, size)
    case KvmMemSlot(slot) => Run(KvmSlotPool, slot, if req.KvmMemSlot? then req.size else 1)
    case MacAddress(_) => iset{}
  }

  function First(res: Resource): nat {
    match res
    case PioAddressRange(base, _) => base
    case MmioAddressRange(base, _) => base
    case MemAddressRange(base, _) => base
    case LegacyIrq(irq) => irq
    case MsiIrq(_, base, _) => base
    case KvmMemSlot(slot) => slot
    case MacAddress(_) => 0
  }

  /** An address as it was asked for. */
  predicate Placed(range: Option<(nat, nat)>, align: nat, size: nat, base: nat) {
    && size > 0 && (align > 1 ==> PowerOfTwo(align) && base % align == 0)
    && (range.Some? ==> range.value.0 <= base && base + size - 1 <= range.value.1)
  }

  /** A descriptor of the kind and size that was asked for, and in a place that was. */
  predicate Meets(l: Layout, sharedIrq: bool, req: ResourceConstraint, res: Resource) {
    match req
    case PioAddress(range, align, size) =>
      res.PioAddressRange? && res.size == size && Placed(range, align, size, res.base)
    case MmioAddress(range, align, size) =>
      res.MmioAddressRange? && res.size == size && Placed(range, align, size, res.base)
    case MemAddress(range, align, size) =>
      res.MemAddressRange? && res.size == size && Placed(range, align, size, res.base)
    case LegacyIrq(irq) =>
      && res.LegacyIrq? && (sharedIrq <==> res.irq == l.irqBase)
      && (irq.Some? && !sharedIrq ==> res.irq == irq.value)
    case PciMsiIrq(n) =>
      res.MsiIrq? && res.ty == PciMsi && res.size == n && PowerOfTwo(n) && res.base % n == 0
    case PciMsixIrq(n) => res.MsiIrq? && res.ty == PciMsix && res.size == n > 0
    case GenericIrq(n) => res.MsiIrq? && res.ty == GenericMsi && res.size == n > 0
    case KvmMemSlot(slot, n) => res.KvmMemSlot? && n > 0 && (slot.Some? ==> n == 1 && res.slot == slot.value)
  }

  /** Such a descriptor of what is free. */
  ghost predicate Possible(l: Layout, sharedIrq: bool, free: Values, req: ResourceConstraint, res: Resource) {
    Meets(l, sharedIrq, req, res) && Occupied(req, sharedIrq, res) <= free
  }

  /** And the lowest of them. */
  ghost predicate Serves(l: Layout, sharedIrq: bool, free: Values, req: ResourceConstraint, res: Resource) {
    Possible(l, sharedIrq, free, req, res) &&
    forall other :: Possible(l, sharedIrq, free, req, other) ==> First(res) <= First(other)
  }

  ghost predicate Unmet(l: Layout, sharedIrq: bool, free: Values, req: ResourceConstraint) {
    forall res :: !Possible(l, sharedIrq, free, req, res)
  }

  /** What is left of the free values once the first `i` requests have been served. */
  ghost function LeftAfter(free: Values, requests: seq<ResourceConstraint>, sharedIrq: bool, resources: seq<Resource>,
                           i: nat): Values
    requires i <= |resources| <= |requests|
  {
    if i == 0 then free
    else LeftAfter(free, requests, sharedIrq, resources, i - 1) - Occupied(requests[i - 1], sharedIrq, resources[i - 1])
  }

  /** Each request has got the lowest that meets it of what the requests before it left. */
  ghost predicate Served(l: Layout, sharedIrq: bool, free: Values, requests: seq<ResourceConstraint>,
                         resources: seq<Resource>) {
    && |resources| <= |requests|
    && forall i: nat :: i < |resources| ==>
         Serves(l, sharedIrq, LeftAfter(free, requests, sharedIrq, resources, i), requests[i], resources[i])
  }

  ghost predicate Servable(l: Layout, sharedIrq: bool, free: Values, requests: seq<ResourceConstraint>) {
    exists resources :: |resources| == |requests| && Served(l, sharedIrq, free, requests, resources)
  }

  lemma {:induction false} LeftStays(free: Values, requests: seq<ResourceConstraint>, sharedIrq: bool,
                                     resources: seq<Resource>, more: seq<Resource>, i: nat)
    requires i <= |resources| <= |more| <= |requests| && more[..i] == resources[..i]
    ensures LeftAfter(free, requests, sharedIrq, more, i) == LeftAfter(free, requests, sharedIrq, resources, i)
  {
    hide Occupied;
    if i > 0 {
      assert more[..i - 1] == more[..i][..i - 1] && resources[..i - 1] == resources[..i][..i - 1];
      assert more[i - 1] == more[..i][i - 1] && resources[i - 1] == resources[..i][i - 1];
      LeftStays(free, requests, sharedIrq, resources, more, i - 1);
    }
  }

  lemma ServedNext(l: Layout, sharedIrq: bool, free: Values, requests: seq<ResourceConstraint>,
                   resources: seq<Resource>, res: Resource)
    requires |resources| < |requests| && Served(l, sharedIrq, free, requests, resources)
    requires var left := LeftAfter(free, requests, sharedIrq, resources, |resources|);
             Serves(l, sharedIrq, left, requests[|resources|], res)
    ensures Served(l, sharedIrq, free, requests, resources + [res])
    ensures LeftAfter(free, requests, sharedIrq, resources + [res], |resources| + 1) ==
            LeftAfter(free, requests, sharedIrq, resources, |resources|) -
            Occupied(requests[|resources|], sharedIrq, res)
  {
    hide Serves, Occupied;
    var n, more := |resources|, resources + [res];
    forall i: nat | i <= n
      ensures LeftAfter(free, requests, sharedIrq, more, i) == LeftAfter(free, requests, sharedIrq, resources, i)
    {
      assert more[..i] == resources[..i];
      LeftStays(free, requests, sharedIrq, resources, more, i);
    }
    forall i: nat | i < |more|
      ensures Serves(l, sharedIrq, LeftAfter(free, requests, sharedIrq, more, i), requests[i], more[i])
    {
      if i < n {
        assert more[i] == resources[i];
      }
    }
  }

  lemma ServedNone(l: Layout, sharedIrq: bool, free: Values, requests: seq<ResourceConstraint>)
    ensures Served(l, sharedIrq, free, requests, []) && LeftAfter(free, requests, sharedIrq, [], 0) == free
  {
  }

  lemma AllServed(l: Layout, sharedIrq: bool, free: Values, requests: seq<ResourceConstraint>, resources: seq<Resource>)
    requires |resources| == |requests| && Served(l, sharedIrq, free, requests, resources)
    ensures Servable(l, sharedIrq, free, requests)
  {
  }

  /** The lowest is one. */
  lemma ServesOne(l: Layout, sharedIrq: bool, free: Values, req: ResourceConstraint, a: Resource, b: Resource)
    requires Serves(l, sharedIrq, free, req, a) && Serves(l, sharedIrq, free, req, b)
    ensures a == b
  {
    hide Occupied;
  }

  lemma {:induction false} ServedAgree(l: Layout, sharedIrq: bool, free: Values, requests: seq<ResourceConstraint>,
                                       a: seq<Resource>, b: seq<Resource>, k: nat)
    requires Served(l, sharedIrq, free, requests, a) && Served(l, sharedIrq, free, requests, b)
    requires k <= |a| <= |b|
    ensures a[..k] == b[..k]
    ensures LeftAfter(free, requests, sharedIrq, a, k) == LeftAfter(free, requests, sharedIrq, b, k)
    decreases k
  {
    hide Serves, Occupied;
    if k > 0 {
      ServedAgree(l, sharedIrq, free, requests, a, b, k - 1);
      ServesOne(l, sharedIrq, LeftAfter(free, requests, sharedIrq, a, k - 1), requests[k - 1], a[k - 1], b[k - 1]);
      assert a[..k] == a[..k - 1] + [a[k - 1]] && b[..k] == b[..k - 1] + [b[k - 1]];
    }
  }

  /** Once a request cannot be met, the list as a whole cannot be served. */
  lemma UnmetEnds(l: Layout, sharedIrq: bool, free: Values, requests: seq<ResourceConstraint>, resources: seq<Resource>)
    requires Served(l, sharedIrq, free, requests, resources) && |resources| < |requests|
    requires var left := LeftAfter(free, requests, sharedIrq, resources, |resources|);
             Unmet(l, sharedIrq, left, requests[|resources|])
    ensures !Servable(l, sharedIrq, free, requests)
  {
    hide Possible, Occupied;
    var n := |resources|;
    forall all | |all| == |requests| && Served(l, sharedIrq, free, requests, all)
      ensures false
    {
      ServedAgree(l, sharedIrq, free, requests, resources, all, n);
    }
  }

  lemma RunIsFree(p: Pools, id: PoolId, g: Range)
    requires g.WellFormed()
    ensures Run(id, g.min, g.Len()) <= FreeValues(p) <==> id in p && forall x :: g.Has(x) ==> FreeAt(p[id], x)
  {
    if Run(id, g.min, g.Len()) <= FreeValues(p) {
      assert (id, g.min) in Run(id, g.min, g.Len());
      forall x | g.Has(x)
        ensures FreeAt(p[id], x)
      {
        assert (id, x) in Run(id, g.min, g.Len());
      }
    }
  }

  /** What a demand allows meets the request. */
  lemma AllowedMeets(l: Layout, sharedIrq: bool, req: ResourceConstraint, g: Range)
    requires var d := DemandOf(l, req, sharedIrq);
             d.From? && d.c.Allows(g) && (d.pool == LegacyIrqPool ==> g.min != l.irqBase)
    ensures var id, res := DemandOf(l, req, sharedIrq).pool, Describe(req, g.min);
            && Meets(l, sharedIrq, req, res) && First(res) == g.min
            && Occupied(req, sharedIrq, res) == Run(id, g.min, g.Len())
  {
  }

  /** What meets the request is allowed by the demand. */
  lemma MeetsAllowed(l: Layout, sharedIrq: bool, req: ResourceConstraint, res: Resource)
    requires Meets(l, sharedIrq, req, res)
    ensures var d := DemandOf(l, req, sharedIrq);
            && !d.Never?
            && (d.SharedIrq? ==> res == Resource.LegacyIrq(l.irqBase) && Occupied(req, sharedIrq, res) == iset{})
            && (d.From? ==>
                 var g := Range(First(res), First(res) + d.c.size - 1);
                 && d.c.size > 0 && Occupied(req, sharedIrq, res) == Run(d.pool, g.min, g.Len())
                 && (g.max <= U64_MAX ==> d.c.Allows(g)))
  {
  }
  /** The free path finds its way back to the lease. */
  predicate Returnable(l: Layout, res: Resource, lease: Option<Lease>) {
    RouteOf(l, res) == if lease.Some? then Into(lease.value.pool, lease.value.range) else Nowhere
  }

  /** The grants whose range the free checks accept: none that ends on the last PIO port or the last
      guest memory address, and no run of several KVM slots. */
  predicate Harmless(l: Layout, lease: Option<Lease>) {
    lease.Some? ==>
      && (lease.value.pool.PioPool? ==> lease.value.range.max != PIO_MAX)
      && (lease.value.pool.MemPool? ==> lease.value.range.max != l.guestMemEnd)
      && (lease.value.pool.KvmSlotPool? ==> lease.value.range.Len() == 1)
  }

  lemma ReturnableIsHarmless(l: Layout, maxSlots: nat, req: ResourceConstraint, sharedIrq: bool, res: Resource,
                             lease: Option<Lease>)
    requires l.WellFormed() && maxSlots <= U32_MAX && Typed(req) && Answers(l, maxSlots, req, sharedIrq, res, lease)
    ensures Returnable(l, res, lease) <==> Harmless(l, lease)
    ensures !Harmless(l, lease) ==>
              match RouteOf(l, res)
              case Refuse(kind) => kind == lease.value.pool
              case Into(id, r) => id == lease.value.pool == KvmSlotPool && r != lease.value.range &&
                  lease.value.range.Intersects(r)
              case _ => false
  {
  }

  /** What a caller can look at beforehand: the grant that ends on the last port or the last address of guest memory is
      not one that is asked for, and neither is a run of several KVM slots. */
  predicate SafeRequest(l: Layout, maxSlots: nat, req: ResourceConstraint) {
    match req
    case PioAddress(range, align, size) => size > PIO_MAX + 1 || !Placed(range, align, size, PIO_MAX + 1 - size)
    case MemAddress(range, align, size) =>
      size > l.guestMemEnd + 1 - l.guestMemStart || !Placed(range, align, size, l.guestMemEnd + 1 - size)
    case KvmMemSlot(slot, size) => slot.Some? || size <= 1 || size > maxSlots + 1
    case _ => true
  }

  lemma SafeRequestsAreHarmless(l: Layout, maxSlots: nat, req: ResourceConstraint, sharedIrq: bool, res: Resource,
                                lease: Option<Lease>)
    requires Answers(l, maxSlots, req, sharedIrq, res, lease) && SafeRequest(l, maxSlots, req)
    ensures Harmless(l, lease)
  {
  }

  /** A request is safe just when none of the grants that would answer it is harmful. */
  lemma SafeExactly(l: Layout, maxSlots: nat, req: ResourceConstraint, sharedIrq: bool)
    requires l.WellFormed() && maxSlots <= U32_MAX && Typed(req)
    ensures SafeRequest(l, maxSlots, req) <==>
      forall res, lease :: Answers(l, maxSlots, req, sharedIrq, res, lease) ==> Harmless(l, lease)
  {
    if SafeRequest(l, maxSlots, req) {
      forall res, lease | Answers(l, maxSlots, req, sharedIrq, res, lease)
        ensures Harmless(l, lease)
      {
        SafeRequestsAreHarmless(l, maxSlots, req, sharedIrq, res, lease);
      }
    } else {
      var d, last := DemandOf(l, req, sharedIrq), Last(l, req);
      var lease := Some(Lease(d.pool, last, d.state));
      assert Answers(l, maxSlots, req, sharedIrq, Describe(req, last.min), lease) && !Harmless(l, lease);
    }
  }

  /** The harmful grant of a request that is not safe. */
  function Last(l: Layout, req: ResourceConstraint): Range {
    match req
    case PioAddress(_, _, size) => Range(Max(0, PIO_MAX + 1 - size) as nat, PIO_MAX)
    case MemAddress(_, _, size) => Range(Max(0, l.guestMemEnd + 1 - size) as nat, l.guestMemEnd)
    case KvmMemSlot(_, size) => Range(0, Max(0, size - 1) as nat)
    case _ => Range(0, 0)
  }

  /** The leases behind a list of grants. */
  ghost function LeaseSet(leases: seq<Option<Lease>>): set<Lease> {
    set i | 0 <= i < |leases| && leases[i].Some? :: leases[i].value
  }

  ghost predicate Distinct(leases: seq<Option<Lease>>) {
    forall i, j :: 0 <= i < j < |leases| && leases[i].Some? ==> leases[i] != leases[j]
  }

  lemma LeaseSetEmpty(leases: seq<Option<Lease>>)
    requires leases == []
    ensures LeaseSet(leases) == {}
  {
  }

  lemma LeaseSetGrows(leases: seq<Option<Lease>>, l: Option<Lease>)
    ensures LeaseSet(leases + [l]) == LeaseSet(leases) + if l.Some? then {l.value} else {}
  {
    var all := leases + [l];
    assert forall i :: 0 <= i < |leases| ==> all[i] == leases[i];
    forall x | x in LeaseSet(leases)
      ensures x in LeaseSet(all)
    {
      var i :| 0 <= i < |leases| && leases[i].Some? && leases[i].value == x;
      assert all[i].value == x;
    }
    if l.Some? {
      assert all[|leases|] == l;
      assert l.value in LeaseSet(all);
    }
  }

  lemma LeaseSetShrinks(leases: seq<Option<Lease>>, i: nat)
    requires i < |leases| && Distinct(leases)
    ensures LeaseSet(leases[i + 1..]) == LeaseSet(leases[i..]) - if leases[i].Some? then {leases[i].value} else {}
    ensures leases[i].Some? ==> leases[i].value in LeaseSet(leases[i..])
  {
    var now, next := leases[i..], leases[i + 1..];
    assert forall j :: 0 <= j < |next| ==> next[j] == now[j + 1] && next[j] == leases[i + 1 + j];
    assert now[0] == leases[i];
    forall x | x in LeaseSet(now) && !(leases[i].Some? && x == leases[i].value)
      ensures x in LeaseSet(next)
    {
      var j :| 0 <= j < |now| && now[j].Some? && now[j].value == x;
      assert j > 0 && next[j - 1].value == x;
    }
    forall x | x in LeaseSet(next)
      ensures x in LeaseSet(now) && !(leases[i].Some? && x == leases[i].value)
    {
      var j :| 0 <= j < |next| && next[j].Some? && next[j].value == x;
      assert now[j + 1].value == x;
    }
  }

  ghost function OneRange(min: nat, max: nat): Contents<()> {
    map[Range(min, max) := Free]
  }

  ghost function SixPools(legacy: Contents<()>, msi: Contents<()>, pio: Contents<()>,
                          mmio: Contents<()>, mem: Contents<()>, kvm: Contents<()>): (p: Pools)
    ensures forall id :: id in p
    ensures p[LegacyIrqPool] == legacy && p[MsiIrqPool] == msi && p[PioPool] == pio
    ensures p[MmioPool] == mmio && p[MemPool] == mem && p[KvmSlotPool] == kvm
  {
    var p := map[LegacyIrqPool := legacy, MsiIrqPool := msi, PioPool := pio,
                 MmioPool := mmio, MemPool := mem, KvmSlotPool := kvm];
    EveryPool(p);
    p
  }

  lemma EveryPool(p: Pools)
    requires LegacyIrqPool in p && MsiIrqPool in p && PioPool in p && MmioPool in p && MemPool in p && KvmSlotPool in p
    ensures forall id :: id in p
  {
    forall id: PoolId
      ensures id in p
    {
      match id {
        case LegacyIrqPool => case MsiIrqPool => case PioPool => case MmioPool => case MemPool => case KvmSlotPool =>
      }
    }
  }

  /** The memory pool of a fresh manager: guest memory on both sides of the MMIO window. */
  ghost function FreshMem(l: Layout): Contents<()>
    requires l.WellFormed()
  {
    if l.HoleAvoided() then map[Range(l.guestMemStart, l.guestMemEnd) := Free]
    else if l.mmioLowStart > l.guestMemStart then
      map[Range(l.guestMemStart, l.mmioLowStart - 1) := Free, Range(l.mmioLowEnd + 1, l.guestMemEnd) := Free]
    else map[Range(l.mmioLowEnd + 1, l.guestMemEnd) := Free]
  }

  method NewPool(r: Range) returns (t: IntervalTree<()>)
    requires r.WellFormed() && !r.Full()
    ensures fresh(t) && PoolOk(t, r) && t.View() == OneRange(r.min, r.max)
  {
    t := new IntervalTree();
    var panicked := t.Insert(r, None);
  }

  /** The entries of the memory pool: all of guest memory, or what lies below and above the window. */
  lemma FreshMemEntries(l: Layout, k: Range)
    requires l.WellFormed()
    ensures k in FreshMem(l) ==>
      && FreshMem(l)[k].Free? && l.guestMemStart <= k.min <= k.max <= l.guestMemEnd
      && (if l.HoleAvoided() then k == Range(l.guestMemStart, l.guestMemEnd)
          else (k.min == l.guestMemStart && k.max == l.mmioLowStart - 1) || k == Range(l.mmioLowEnd + 1, l.guestMemEnd))
  {
  }

  lemma FreshMemIsPool(l: Layout)
    requires l.WellFormed()
    ensures Pool(FreshMem(l)) && InBounds(FreshMem(l), Range(l.guestMemStart, l.guestMemEnd))
  {
    hide FreshMem;
    var m := FreshMem(l);
    forall j, k | j in m && k in m
      ensures j.WellFormed() && (j != k ==> j.max < k.min || k.max < j.min) && j.max + 1 != k.min
      ensures Range(l.guestMemStart, l.guestMemEnd).Contains(j)
    {
      FreshMemEntries(l, j);
      FreshMemEntries(l, k);
    }
  }

  method NewMemPool(l: Layout) returns (t: IntervalTree<()>)
    requires l.WellFormed()
    ensures fresh(t) && PoolOk(t, Range(l.guestMemStart, l.guestMemEnd)) && t.View() == FreshMem(l)
  {
    hide Pool, InBounds;
    FreshMemIsPool(l);
    t := new IntervalTree();
    if l.guestMemEnd < l.mmioLowStart || l.guestMemStart > l.mmioLowEnd || l.mmioLowStart == l.mmioLowEnd {
      var panicked := t.Insert(Range(l.guestMemStart, l.guestMemEnd), None);
    } else {
      if l.mmioLowStart > l.guestMemStart {
        var panicked := t.Insert(Range(l.guestMemStart, l.mmioLowStart - 1), None);
      }
      if l.mmioLowEnd < l.guestMemEnd {
        var panicked := t.Insert(Range(l.mmioLowEnd + 1, l.guestMemEnd), None);
      }
    }
  }

  lemma AddFarRange(m: Contents<()>, b: Range, r: Range)
    requires Pool(m) && InBounds(m, b) && r.WellFormed() && b.max + 1 < r.min
    ensures !Overlaps(m, r) && Pool(m[r := Free])
  {
  }

  /** The 64 MiB below the end of the low window that are kept for system devices. */
  function Reserved(l: Layout): Range
    requires l.WellFormed() && l.reserveMmio
  {
    Range(l.mmioLowEnd - MMIO_SPACE_RESERVED, l.mmioLowEnd - 1)
  }

  predicate Reserves(l: Layout) {
    !l.HoleAvoided() && l.reserveMmio
  }

  /** The low MMIO window of a fresh manager: free but for the reservation, which leaves the last address. */
  ghost function LowWindow(l: Layout): Contents<()>
    requires l.WellFormed()
  {
    if !Reserves(l) then map[Range(l.mmioLowStart, l.mmioLowEnd) := Free]
    else
      var r := Reserved(l);
      var top := map[r := Valued(()), Range(l.mmioLowEnd, l.mmioLowEnd) := Free];
      if l.mmioLowStart < r.min then top[Range(l.mmioLowStart, r.min - 1) := Free] else top
  }

  /** The MMIO pool of a fresh manager: the low window and all above guest memory. */
  ghost function FreshMmio(l: Layout): Contents<()>
    requires l.WellFormed()
  {
    LowWindow(l)[Range(l.guestMemEnd + 1, l.guestPhysEnd) := Free]
  }

  /** The entries of the window: what lies below the reservation, itself, and the last address. */
  lemma WindowEntries(l: Layout, k: Range)
    requires l.WellFormed() && Reserves(l)
    ensures var m, r := LowWindow(l), Reserved(l);
            && (k in m <==> k == r || k == Range(l.mmioLowEnd, l.mmioLowEnd) ||
                            (l.mmioLowStart < r.min && k == Range(l.mmioLowStart, r.min - 1)))
            && (k in m ==> m[k] == if k == r then Valued(()) else Free)
  {
  }

  lemma WindowIsPool(l: Layout)
    requires l.WellFormed() && Reserves(l)
    ensures Pool(LowWindow(l))
  {
    hide LowWindow;
    var m := LowWindow(l);
    forall j, k | j in m && k in m
      ensures j.WellFormed() && (j != k ==> j.max < k.min || k.max < j.min)
      ensures m[j].Free? && m[k].Free? ==> j.max + 1 != k.min
    {
      WindowEntries(l, j);
      WindowEntries(l, k);
    }
  }

  lemma WindowHeld(l: Layout)
    requires l.WellFormed() && Reserves(l)
    ensures Held(LowWindow(l)) == map[Reserved(l) := Valued(())]
  {
    hide LowWindow;
    var m := LowWindow(l);
    WindowEntries(l, Reserved(l));
    forall k | k in m
      ensures m[k].Free? <==> k != Reserved(l)
      ensures k == Reserved(l) ==> m[k] == Valued(())
    {
      WindowEntries(l, k);
    }
  }

  lemma WindowFree(l: Layout, x: int)
    requires l.WellFormed() && Reserves(l)
    ensures FreeAt(LowWindow(l), x) <==> l.mmioLowStart <= x <= l.mmioLowEnd && !Reserved(l).Has(x)
  {
    hide LowWindow;
    var m, r := LowWindow(l), Reserved(l);
    if FreeAt(m, x) {
      var k :| k in m && m[k].Free? && k.Has(x);
      WindowEntries(l, k);
    }
    if l.mmioLowStart <= x < r.min {
      WindowEntries(l, Range(l.mmioLowStart, r.min - 1));
      assert Range(l.mmioLowStart, r.min - 1).Has(x);
    }
    WindowEntries(l, Range(l.mmioLowEnd, l.mmioLowEnd));
    assert x == l.mmioLowEnd ==> Range(l.mmioLowEnd, l.mmioLowEnd).Has(x);
  }

  function ReserveDemand(l: Layout): Constraint
    requires l.WellFormed() && l.reserveMmio
  {
    Constraint(MMIO_SPACE_RESERVED, l.mmioLowEnd - MMIO_SPACE_RESERVED, 0xffff_ffff, 1)
  }

  lemma ReservationFits(l: Layout, g: Option<Range>, m: Contents<()>)
    requires l.WellFormed() && Reserves(l)
    requires Taken(OneRange(l.mmioLowStart, l.mmioLowEnd), ReserveDemand(l), Valued(()), g, m)
    ensures g == Some(Reserved(l))
  {
    var low, room := Range(l.mmioLowStart, l.mmioLowEnd), Reserved(l);
    assert low in OneRange(low.min, low.max) && low.Contains(room);
    assert Admissible(OneRange(low.min, low.max), ReserveDemand(l), room);
  }

  lemma ReservationMade(l: Layout, m: Contents<()>)
    requires l.WellFormed() && Reserves(l) && Pool(m)
    requires IntervalTrees.Granted(OneRange(l.mmioLowStart, l.mmioLowEnd), Reserved(l), Valued(()), m)
    ensures m == LowWindow(l)
  {
    hide LowWindow, Pool;
    WindowIsPool(l);
    WindowHeld(l);
    OneRangeMeans(l.mmioLowStart, l.mmioLowEnd);
    forall x
      ensures FreeAt(m, x) <==> FreeAt(LowWindow(l), x)
    {
      WindowFree(l, x);
    }
    NormalForm(m, LowWindow(l));
  }

  lemma OneRangeMeans(min: nat, max: nat)
    requires min <= max
    ensures Held(OneRange(min, max)) == map[]
    ensures forall x :: FreeAt(OneRange(min, max), x) <==> min <= x <= max
  {
    assert Range(min, max) in OneRange(min, max);
    assert forall x :: Range(min, max).Has(x) <==> min <= x <= max;
  }

  /** Reserve room for system devices below 4 GiB; it cannot fail. */
  method ReserveWindow(t: IntervalTree<()>, l: Layout)
    requires l.WellFormed() && Reserves(l)
    requires PoolOk(t, Range(l.mmioLowStart, l.mmioLowEnd)) && t.View() == OneRange(l.mmioLowStart, l.mmioLowEnd)
    modifies t
    ensures PoolOk(t, Range(l.mmioLowStart, l.mmioLowEnd)) && t.View() == LowWindow(l)
  {
    hide Taken, IntervalTrees.Granted, Entries, IntervalNodes.Valid, LowWindow, OneRange;
    ghost var before := t.View();
    ReserveTyped(l);
    var key := TakeFrom(t, Range(l.mmioLowStart, l.mmioLowEnd), ReserveDemand(l), Valued(()));
    ReservationFits(l, key, t.View());
    TakenIsGranted(before, ReserveDemand(l), Valued(()), key.value, t.View());
    ReservationMade(l, t.View());
  }

  lemma ReserveTyped(l: Layout)
    requires l.WellFormed() && l.reserveMmio
    ensures WordSized(ReserveDemand(l))
  {
  }

  method NewMmioPool(l: Layout) returns (t: IntervalTree<()>)
    requires l.WellFormed()
    ensures fresh(t) && PoolOk(t, Range(l.mmioLowStart, l.guestPhysEnd)) && t.View() == FreshMmio(l)
  {
    hide Entries, IntervalNodes.Valid, Overlaps, Pool;
    var low := Range(l.mmioLowStart, l.mmioLowEnd);
    t := NewPool(low);
    if !(l.guestMemEnd < l.mmioLowStart || l.guestMemStart > l.mmioLowEnd || l.mmioLowStart == l.mmioLowEnd) &&
        l.reserveMmio {
      ReserveWindow(t, l);
    }
    AddFarRange(t.View(), low, Range(l.guestMemEnd + 1, l.guestPhysEnd));
    var panicked := t.Insert(Range(l.guestMemEnd + 1, l.guestPhysEnd), None);
  }

  lemma TakenIsGranted(m: Contents<()>, c: Constraint, state: NodeState<()>, g: Range, m': Contents<()>)
    requires Taken(m, c, state, Some(g), m')
    ensures IntervalTrees.Granted(m, g, state, m')
  {
  }

  method NewPortPools(l: Layout) returns (legacy: IntervalTree<()>, msi: IntervalTree<()>, pio: IntervalTree<()>)
    requires l.WellFormed()
    ensures fresh(legacy) && fresh(msi) && fresh(pio) && legacy != msi && legacy != pio && msi != pio
    ensures PoolOk(legacy, Bounds(l, 0, LegacyIrqPool)) && legacy.View() == OneRange(l.irqBase + 1, l.irqMax)
    ensures PoolOk(msi, Bounds(l, 0, MsiIrqPool)) && msi.View() == OneRange(l.msiBase, MSI_IRQ_MAX)
    ensures PoolOk(pio, Bounds(l, 0, PioPool)) && pio.View() == OneRange(0, PIO_MAX)
  {
    hide PoolOk, OneRange, Entries;
    legacy := NewPool(Range(l.irqBase + 1, l.irqMax));
    msi := NewPool(Range(l.msiBase, MSI_IRQ_MAX));
    pio := NewPool(Range(0, PIO_MAX));
  }

  method NewAddressPools(l: Layout, maxSlots: nat)
    returns (mmio: IntervalTree<()>, mem: IntervalTree<()>, kvm: IntervalTree<()>)
    requires l.WellFormed() && maxSlots <= U32_MAX
    ensures fresh(mmio) && fresh(mem) && fresh(kvm) && mmio != mem && mmio != kvm && mem != kvm
    ensures PoolOk(mmio, Bounds(l, maxSlots, MmioPool)) && mmio.View() == FreshMmio(l)
    ensures PoolOk(mem, Bounds(l, maxSlots, MemPool)) && mem.View() == FreshMem(l)
    ensures PoolOk(kvm, Bounds(l, maxSlots, KvmSlotPool)) && kvm.View() == OneRange(0, maxSlots)
  {
    hide PoolOk, FreshMem, FreshMmio, OneRange, Entries;
    mmio := NewMmioPool(l);
    mem := NewMemPool(l);
    kvm := NewPool(Range(0, maxSlots));
  }

  ghost predicate PoolOk(t: IntervalTree<()>, b: Range)
    reads t
  {
    t.Valid() && Pool(t.View()) && InBounds(t.View(), b) && b.WellFormed() && !b.Full()
  }

  /** The outcome of one allocation: the first fit, or nothing fits and nothing changes. */
  ghost predicate Taken(m: Contents<()>, c: Constraint, state: NodeState<()>, g: Option<Range>, m': Contents<()>) {
    match g
    case None => m' == m && forall h :: !Admissible(m, c, h)
    case Some(r) => FirstFit(m, c, r) && IntervalTrees.Granted(m, r, state, m')
  }

  lemma PutPool(p: Pools, id: PoolId, m: Contents<()>)
    requires AllPools(p) && Pool(m)
    ensures AllPools(p[id := m])
  {
  }

  method TakeFrom(t: IntervalTree<()>, ghost b: Range, c: Constraint, state: NodeState<()>) returns (g: Option<Range>)
    requires PoolOk(t, b) && WordSized(c) && !state.Free?
    modifies t
    ensures PoolOk(t, b) && Taken(old(t.View()), c, state, g, t.View())
    ensures g.Some? ==> b.Contains(g.value)
  {
    ghost var m := t.View();
    assert NoFullRange(m);
    g := t.Allocate(c);
    if g.Some? {
      ghost var n := t.View();
      GrantMarked(m, g.value, n, state);
      if state.Valued? {
        var _, _ := t.Update(g.value, state.value);
      }
      GrantInBounds(m, c, g.value, b);
      BoundsKept(m, t.View(), g.value, b);
    }
  }

  method GiveBackTo(t: IntervalTree<()>, ghost b: Range, key: Range) returns (panicked: bool)
    requires t.Valid() && Pool(t.View()) && key.WellFormed()
    modifies t
    ensures panicked <==> !Releasable(old(t.View()), key)
    ensures !panicked ==> t.Valid() && Pool(t.View()) && Released(old(t.View()), key, t.View())
    ensures !panicked && InBounds(old(t.View()), b) && b.Contains(key) ==> InBounds(t.View(), b)
  {
    var data;
    ghost var m := t.View();
    panicked, data := t.Free(key);
    if !panicked && InBounds(m, b) && b.Contains(key) {
      BoundsKept(m, t.View(), key, b);
    }
  }

  /** Nothing in the pools can meet the demand. */
  ghost predicate Hopeless(p: Pools, d: Demand) {
    match d
    case SharedIrq => false
    case Never => true
    case From(id, c, _) => id in p && forall h :: !Admissible(p[id], c, h)
  }

  /** `p'` is `p` after the lease `l` has been taken out as the first fit of the demand. */
  ghost predicate NewLease(p: Pools, d: Demand, l: Lease, p': Pools) {
    && l.pool in p && d.From? && d.pool == l.pool && d.state == l.state && !l.state.Free?
    && l.range.WellFormed() && (forall x :: l.range.Has(x) ==> FreeAt(p[l.pool], x))
    && FirstFit(p[l.pool], d.c, l.range)
    && exists m :: IntervalTrees.Granted(p[l.pool], l.range, l.state, m) && p' == p[l.pool := m]
  }

  lemma AdmissibleIsFree(m: Contents<()>, c: Constraint, g: Range)
    requires Admissible(m, c, g)
    ensures forall x :: g.Has(x) ==> FreeAt(m, x)
  {
    var k :| k in m && m[k].Free? && k.Contains(g);
    assert forall x :: g.Has(x) ==> k.Has(x);
  }

  lemma TakenMeans(p: Pools, id: PoolId, c: Constraint, state: NodeState<()>, g: Option<Range>, m: Contents<()>)
    requires id in p && !state.Free? && Taken(p[id], c, state, g, m)
    ensures g.None? ==> Hopeless(p, From(id, c, state)) && p[id := m] == p
    ensures g.Some? ==> c.Allows(g.value) && NewLease(p, From(id, c, state), Lease(id, g.value, state), p[id := m])
  {
    if g.Some? {
      AdmissibleIsFree(p[id], c, g.value);
    }
  }

  /** A descriptor of free values that meets the request is admissible in its pool. */
  lemma PossibleIsAdmissible(l: Layout, sharedIrq: bool, p: Pools, req: ResourceConstraint, res: Resource)
    requires AllPools(p) && Possible(l, sharedIrq, FreeValues(p), req, res)
    ensures var d := DemandOf(l, req, sharedIrq);
            && !d.Never?
            && (d.From? ==> d.c.size > 0 && Admissible(p[d.pool], d.c, Range(First(res), First(res) + d.c.size - 1)))
  {
    hide FreeAt, Constraint.Allows, Meets, DemandOf, Occupied, First, Run, Pool;
    var d := DemandOf(l, req, sharedIrq);
    MeetsAllowed(l, sharedIrq, req, res);
    if d.From? {
      var g := Range(First(res), First(res) + d.c.size - 1);
      LastIsWord(p, d.pool, g);
      RunIsFree(p, d.pool, g);
      ContiguousFree(p[d.pool], g);
    }
  }

  lemma LastIsWord(p: Pools, id: PoolId, g: Range)
    requires AllPools(p) && g.min <= g.max && Run(id, g.min, g.Len()) <= FreeValues(p)
    ensures g.WellFormed()
  {
    assert (id, g.max) in Run(id, g.min, g.Len());
    assert FreeAt(p[id], g.max);
  }

  /** A grant serves its request, and takes up what its descriptor says. */
  lemma GrantServes(l: Layout, maxSlots: nat, sharedIrq: bool, p: Pools, req: ResourceConstraint, res: Resource,
                    lease: Option<Lease>, q: Pools)
    requires AllPools(p) && Answers(l, maxSlots, req, sharedIrq, res, lease)
    requires if lease.Some? then NewLease(p, DemandOf(l, req, sharedIrq), lease.value, q) else q == p
    ensures Serves(l, sharedIrq, FreeValues(p), req, res)
    ensures FreeValues(q) == FreeValues(p) - Occupied(req, sharedIrq, res)
  {
    hide FreeAt, Constraint.Allows, Meets, DemandOf, Occupied, First, Run, Pool, Admissible, Describe, Placed;
    var d := DemandOf(l, req, sharedIrq);
    if d.From? {
      var g := lease.value.range;
      NotShared(l, maxSlots, req, sharedIrq, g);
      AllowedMeets(l, sharedIrq, req, g);
      RunIsFree(p, d.pool, g);
      forall other | Possible(l, sharedIrq, FreeValues(p), req, other)
        ensures First(res) <= First(other)
      {
        PossibleIsAdmissible(l, sharedIrq, p, req, other);
      }
      LeaseOccupies(p, d, lease.value, q);
    } else {
      SharedServes(l, sharedIrq, FreeValues(p), req);
    }
  }

  lemma NotShared(l: Layout, maxSlots: nat, req: ResourceConstraint, sharedIrq: bool, g: Range)
    requires var d := DemandOf(l, req, sharedIrq); d.From? && Bounds(l, maxSlots, d.pool).Contains(g)
    ensures DemandOf(l, req, sharedIrq).pool == LegacyIrqPool ==> g.min != l.irqBase
  {
  }

  lemma SharedServes(l: Layout, sharedIrq: bool, free: Values, req: ResourceConstraint)
    requires DemandOf(l, req, sharedIrq).SharedIrq?
    ensures Serves(l, sharedIrq, free, req, Resource.LegacyIrq(l.irqBase))
    ensures Occupied(req, sharedIrq, Resource.LegacyIrq(l.irqBase)) == iset{}
  {
  }

  lemma LeaseOccupies(p: Pools, d: Demand, lease: Lease, q: Pools)
    requires NewLease(p, d, lease, q)
    ensures FreeValues(q) == FreeValues(p) - Run(d.pool, lease.range.min, lease.range.Len())
  {
    hide FirstFit, FreeAt, Held, Disjoint, Coalesced;
  }

  lemma HopelessIsUnmet(l: Layout, sharedIrq: bool, p: Pools, req: ResourceConstraint)
    requires AllPools(p) && Hopeless(p, DemandOf(l, req, sharedIrq))
    ensures Unmet(l, sharedIrq, FreeValues(p), req)
  {
    hide Possible, Admissible, DemandOf;
    var d := DemandOf(l, req, sharedIrq);
    forall res
      ensures !Possible(l, sharedIrq, FreeValues(p), req, res)
    {
      if Possible(l, sharedIrq, FreeValues(p), req, res) {
        PossibleIsAdmissible(l, sharedIrq, p, req, res);
      }
    }
  }

  lemma DemandTyped(l: Layout, req: ResourceConstraint, sharedIrq: bool)
    requires Typed(req)
    ensures var d := DemandOf(l, req, sharedIrq);
            && (d.From? ==> WordSized(d.c))
            && (d.From? ==> d.state == if req.MmioAddress? || req.MemAddress? then Allocated else Valued(()))
  {
  }

  lemma NeverHopeless(p: Pools)
    ensures Hopeless(p, Never)
  {
  }

  predicate TypedResource(res: Resource) {
    res.KvmMemSlot? ==> res.slot <= U32_MAX
  }

  lemma RouteIsRange(l: Layout, res: Resource)
    requires l.WellFormed() && TypedResource(res) && RouteOf(l, res).Into?
    ensures RouteOf(l, res).range.WellFormed()
  {
  }

  /** The first grant that the free path does not take back. */
  predicate FirstHarm(l: Layout, leases: seq<Option<Lease>>, k: nat)
    requires k < |leases|
  {
    !Harmless(l, leases[k]) && forall i :: 0 <= i < k ==> Harmless(l, leases[i])
  }

  /** Descriptors, leases and requests that belong together, one lease per grant. */
  ghost predicate Backed(l: Layout, maxSlots: nat, requests: seq<ResourceConstraint>, sharedIrq: bool,
                         resources: seq<Resource>, leases: seq<Option<Lease>>) {
    && |resources| == |leases| <= |requests| && Distinct(leases)
    && (forall i :: 0 <= i < |requests| ==> Typed(requests[i]))
    && (forall i :: 0 <= i < |resources| ==> Answers(l, maxSlots, requests[i], sharedIrq, resources[i], leases[i]))
  }

  lemma BackedNext(l: Layout, maxSlots: nat, requests: seq<ResourceConstraint>, sharedIrq: bool,
                   resources: seq<Resource>, leases: seq<Option<Lease>>, res: Resource, lease: Option<Lease>)
    requires Backed(l, maxSlots, requests, sharedIrq, resources, leases) && |leases| < |requests| &&
        Distinct(leases + [lease])
    requires Answers(l, maxSlots, requests[|leases|], sharedIrq, res, lease)
    ensures Backed(l, maxSlots, requests, sharedIrq, resources + [res], leases + [lease])
  {
    hide Answers, Typed;
  }

  lemma AnswersTyped(l: Layout, maxSlots: nat, req: ResourceConstraint, sharedIrq: bool, res: Resource,
                     lease: Option<Lease>)
    requires maxSlots <= U32_MAX && Answers(l, maxSlots, req, sharedIrq, res, lease)
    ensures TypedResource(res)
  {
  }

  /** What the free path makes of a grant: a harmless one comes back under its own range, any other one is
      refused by its check or collides with itself in the pool. */
  lemma WayBack(l: Layout, maxSlots: nat, req: ResourceConstraint, sharedIrq: bool, res: Resource, lease: Option<Lease>,
                p: Pools, ls: set<Lease>, q: Pools)
    requires l.WellFormed() && maxSlots <= U32_MAX && Typed(req) && Answers(l, maxSlots, req, sharedIrq, res, lease)
    requires lease.Some? ==> Lent(p, ls, q) && lease.value in ls
    ensures TypedResource(res)
    ensures lease.Some? ==> lease.value.pool in q && Bounds(l, maxSlots, lease.value.pool).Contains(lease.value.range)
    ensures Harmless(l, lease) && lease.None? ==> RouteOf(l, res) == Nowhere
    ensures Harmless(l, lease) && lease.Some? ==>
              RouteOf(l, res) == Into(lease.value.pool, lease.value.range) &&
                  Releasable(q[lease.value.pool], lease.value.range)
    ensures !Harmless(l, lease) ==>
              && lease.Some?
              && match RouteOf(l, res)
                 case Refuse(kind) => kind == lease.value.pool
                 case Into(id, key) => id == lease.value.pool == KvmSlotPool && !Releasable(q[id], key)
                 case _ => false
  {
    AnswersTyped(l, maxSlots, req, sharedIrq, res, lease);
    ReturnableIsHarmless(l, maxSlots, req, sharedIrq, res, lease);
    hide RouteOf, Lent, Typed, Harmless, Bounds, Layout.WellFormed, Describe, Constraint.Allows;
    if lease.Some? {
      LeaseReleasable(p, ls, q, lease.value);
    }
  }

  lemma ReturnNext(p: Pools, others: set<Lease>, leases: seq<Option<Lease>>, i: nat, before: Pools, after: Pools)
    requires i < |leases| && Lent(p, others + LeaseSet(leases[i..]), before) && Distinct(leases) &&
        others !! LeaseSet(leases)
    requires leases[i].None? ==> after == before
    requires leases[i].Some? ==>
               var l := leases[i].value;
               l.pool in before && exists m :: Released(before[l.pool], l.range, m) && after == before[l.pool := m]
    ensures Lent(p, others + LeaseSet(leases[i + 1..]), after)
  {
    hide Lent, Released;
    LeaseSetShrinks(leases, i);
    var now := others + LeaseSet(leases[i..]);
    if leases[i].Some? {
      var l := leases[i].value;
      var m :| Released(before[l.pool], l.range, m) && after == before[l.pool := m];
      ReturnOne(p, now, before, l, m);
      assert l in LeaseSet(leases);
      assert now - {l} == others + LeaseSet(leases[i + 1..]);
    } else {
      assert now == others + LeaseSet(leases[i + 1..]);
    }
  }

  lemma LendNext(p: Pools, leases: seq<Option<Lease>>, before: Pools, d: Demand, lease: Option<Lease>, after: Pools)
    requires Lent(p, LeaseSet(leases), before) && Distinct(leases)
    requires if lease.Some? then NewLease(before, d, lease.value, after) else after == before
    ensures Distinct(leases + [lease]) && Lent(p, LeaseSet(leases + [lease]), after)
  {
    hide Lent, IntervalTrees.Granted, FirstFit, FreeAt;
    LeaseSetGrows(leases, lease);
    if lease.Some? {
      var l := lease.value;
      var m :| IntervalTrees.Granted(before[l.pool], l.range, l.state, m) && after == before[l.pool := m];
      LendOne(p, LeaseSet(leases), before, l, m);
      assert forall i :: 0 <= i < |leases| && leases[i].Some? ==> leases[i].value in LeaseSet(leases);
    } else {
      assert LeaseSet(leases + [lease]) == LeaseSet(leases);
    }
  }

  datatype FreeOutcome = Freed | Refused(kind: PoolId) | Panicked

  datatype TxResult = Granted(resources: seq<Resource>) | Failed(error: ResourceError) | Crashed

  /** A resource goes back: it has nothing to free, or its pool takes the range. */
  ghost predicate FreeStep(l: Layout, p: Pools, res: Resource, p': Pools) {
    match RouteOf(l, res)
    case Nowhere => p' == p
    case Into(id, key) =>
      id in p && Releasable(p[id], key) && exists m :: Released(p[id], key, m) && p' == p[id := m]
    case _ => false
  }

  /** A resource that does not go back, and what happens instead. */
  ghost predicate FreeStops(l: Layout, p: Pools, res: Resource, out: FreeOutcome) {
    match RouteOf(l, res)
    case Nowhere => false
    case Refuse(kind) => out == Refused(kind)
    case BadRange => out.Panicked?
    case Into(id, key) => out.Panicked? && id in p && !Releasable(p[id], key)
  }

  /** What a descriptor gives back. The shared interrupt is nobody's; of a run of KVM slots only the first is known. */
  ghost function GivenBack(l: Layout, res: Resource): Values {
    match res
    case PioAddressRange(base, size) => Run(PioPool, base, size)
    case MmioAddressRange(base, size) => Run(MmioPool, base, size)
    case MemAddressRange(base, size) => Run(MemPool, base, size)
    case LegacyIrq(irq) => if irq == l.irqBase then iset{} else iset{(LegacyIrqPool, irq)}
    case MsiIrq(_, base, size) => Run(MsiIrqPool, base, size)
    case KvmMemSlot(slot) => iset{(KvmSlotPool, slot)}
    case MacAddress(_) => iset{}
  }

  /** The descriptors that are sent back without a look at the pools. */
  predicate OutOfPlace(l: Layout, res: Resource) {
    match res
    case PioAddressRange(base, size) => base + size >= 0x1_0000
    case MmioAddressRange(base, size) => base + size >= 0x1_0000_0000_0000_0000
    case MemAddressRange(base, size) => base < l.guestMemStart || l.guestMemEnd < base + size
    case LegacyIrq(irq) => irq < l.irqBase || l.irqMax < irq
    case MsiIrq(_, base, size) => size == 0 || base < l.msiBase || 1023 < base + size - 1
    case KvmMemSlot(_) => false
    case MacAddress(_) => false
  }

  function KindOf(res: Resource): PoolId {
    match res
    case PioAddressRange(_, _) => PioPool
    case MmioAddressRange(_, _) => MmioPool
    case MemAddressRange(_, _) => MemPool
    case LegacyIrq(_) => LegacyIrqPool
    case MsiIrq(_, _, _) => MsiIrqPool
    case _ => KvmSlotPool
  }

  /** A resource that goes back frees what its descriptor says, and nothing else. */
  lemma GoesBack(l: Layout, p: Pools, res: Resource, p': Pools)
    requires l.WellFormed() && FreeStep(l, p, res, p')
    ensures !OutOfPlace(l, res) && FreeValues(p') == FreeValues(p) + GivenBack(l, res)
  {
    hide FreeAt, Releasable, Held, HeldExcept, Disjoint, Coalesced;
  }

  /** One that does not is out of place, or empty, or in the way of a stored range. */
  lemma StaysOut(l: Layout, p: Pools, res: Resource, out: FreeOutcome)
    requires l.WellFormed() && FreeStops(l, p, res, out)
    ensures out == (if OutOfPlace(l, res) then Refused(KindOf(res)) else Panicked)
    ensures !OutOfPlace(l, res) && GivenBack(l, res) != iset{} ==>
      KindOf(res) in p && exists k :: k in p[KindOf(res)] && Meddles(l, res, k)
  {
    var route := RouteOf(l, res);
    if route.Into? {
      var k :| k in p[route.pool] && k != route.range && k.Intersects(route.range);
      var shared := Max(k.min, route.range.min);
      assert k.Has(shared) && (KindOf(res), shared) in GivenBack(l, res);
      var other := if k.min != route.range.min then Min(k.min, route.range.min) else Max(k.max, route.range.max);
      assert k.Has(other) != ((KindOf(res), other) in GivenBack(l, res));
    }
  }

  /** The range meets what the descriptor would give back, and is not just that. */
  ghost predicate Meddles(l: Layout, res: Resource, k: Range) {
    && (exists x :: k.Has(x) && (KindOf(res), x) in GivenBack(l, res))
    && exists x :: k.Has(x) != ((KindOf(res), x) in GivenBack(l, res))
  }

  /** The pools while the first `k` resources of a list go back. */
  ghost predicate FreeChain(l: Layout, resources: seq<Resource>, k: nat, ps: seq<Pools>) {
    && |ps| == k + 1 && k <= |resources|
    && forall i :: 0 <= i < k ==> FreeStep(l, ps[i], resources[i], ps[i + 1])
  }

  /** A resource whose range lies in its pool. */
  predicate InPool(l: Layout, maxSlots: nat, res: Resource) {
    match RouteOf(l, res)
    case Into(id, key) => Bounds(l, maxSlots, id).Contains(key)
    case _ => true
  }

  lemma BackedTyped(l: Layout, maxSlots: nat, requests: seq<ResourceConstraint>, sharedIrq: bool,
                    resources: seq<Resource>, leases: seq<Option<Lease>>)
    requires l.WellFormed() && maxSlots <= U32_MAX && Backed(l, maxSlots, requests, sharedIrq, resources, leases)
    ensures forall i :: 0 <= i < |resources| ==> TypedResource(resources[i])
  {
    hide Answers, TypedResource, Typed, Layout.WellFormed;
    forall i | 0 <= i < |resources|
      ensures TypedResource(resources[i])
    {
      AnswersTyped(l, maxSlots, requests[i], sharedIrq, resources[i], leases[i]);
    }
  }

  /** Granted resources on their way back: each one before the stop was harmless, and the rest is still leased. */
  lemma {:induction false} LeasedFree(l: Layout, maxSlots: nat, requests: seq<ResourceConstraint>, sharedIrq: bool,
                                      resources: seq<Resource>, leases: seq<Option<Lease>>,
                                      p: Pools, others: set<Lease>, k: nat, ps: seq<Pools>)
    requires l.WellFormed() && maxSlots <= U32_MAX && Backed(l, maxSlots, requests, sharedIrq, resources, leases)
    requires FreeChain(l, resources, k, ps)
    requires Lent(p, others + LeaseSet(leases), ps[0]) && others !! LeaseSet(leases)
    ensures forall j :: 0 <= j < k ==> Harmless(l, leases[j]) && InPool(l, maxSlots, resources[j])
    ensures Lent(p, others + LeaseSet(leases[k..]), ps[k])
    decreases k
  {
    hide Lent, Layout.WellFormed, Answers, FreeStep, Harmless, InPool, LeaseSet, Distinct, Typed;
    if k == 0 {
      assert leases[0..] == leases;
    } else {
      var i := k - 1;
      LeasedFree(l, maxSlots, requests, sharedIrq, resources, leases, p, others, i, ps[..k]);
      assert FreeStep(l, ps[i], resources[i], ps[k]);
      LeaseBack(l, maxSlots, requests[i], sharedIrq, resources[i], leases, i, p, others, ps[i], ps[k]);
    }
  }

  lemma LeaseBack(l: Layout, maxSlots: nat, req: ResourceConstraint, sharedIrq: bool, res: Resource,
                  leases: seq<Option<Lease>>, i: nat, p: Pools, others: set<Lease>, q: Pools, q': Pools)
    requires l.WellFormed() && maxSlots <= U32_MAX && i < |leases| && Typed(req)
    requires Answers(l, maxSlots, req, sharedIrq, res, leases[i]) && Distinct(leases)
    requires Lent(p, others + LeaseSet(leases[i..]), q) && others !! LeaseSet(leases) && FreeStep(l, q, res, q')
    ensures Harmless(l, leases[i]) && InPool(l, maxSlots, res)
    ensures Lent(p, others + LeaseSet(leases[i + 1..]), q')
  {
    hide Lent, Layout.WellFormed, Answers, RouteOf, Harmless, Bounds, LeaseSet, Distinct, Typed, Released, Releasable;
    LeaseSetShrinks(leases, i);
    WayBack(l, maxSlots, req, sharedIrq, res, leases[i], p, others + LeaseSet(leases[i..]), q);
    ReturnNext(p, others, leases, i, q, q');
  }

  /** The grant a roll-back stops at is harmful, and its pool is the one the error names. */
  lemma LeasedStop(l: Layout, maxSlots: nat, req: ResourceConstraint, sharedIrq: bool, res: Resource,
                   leases: seq<Option<Lease>>, k: nat, p: Pools, others: set<Lease>, q: Pools, out: FreeOutcome)
    requires l.WellFormed() && maxSlots <= U32_MAX && k < |leases| && Typed(req)
    requires Answers(l, maxSlots, req, sharedIrq, res, leases[k]) && Distinct(leases)
    requires Lent(p, others + LeaseSet(leases[k..]), q) && FreeStops(l, q, res, out)
    ensures !Harmless(l, leases[k]) && leases[k].Some? && LeaseSet(leases[k..]) != {} && !out.Freed?
    ensures out.Panicked? ==> leases[k].value.pool == KvmSlotPool
    ensures out.Refused? ==> leases[k].value.pool == out.kind
  {
    hide Lent, Layout.WellFormed, Answers, RouteOf, Harmless, Bounds, LeaseSet, Distinct, Typed, Released, Releasable;
    LeaseSetShrinks(leases, k);
    WayBack(l, maxSlots, req, sharedIrq, res, leases[k], p, others + LeaseSet(leases[k..]), q);
  }

  /** The grants a list of requests gets out of the pools, one first fit after the other, up to the first request that
      cannot be met. */
  ghost function Grants(l: Layout, sharedIrq: bool, p: Pools, requests: seq<ResourceConstraint>): seq<Option<Lease>>
    decreases |requests|
  {
    if requests == [] then []
    else
      match DemandOf(l, requests[0], sharedIrq)
      case SharedIrq => [None] + Grants(l, sharedIrq, p, requests[1..])
      case Never => []
      case From(id, c, state) =>
        if exists lease, q :: NewLease(p, From(id, c, state), lease, q) then
          var lease, q :| NewLease(p, From(id, c, state), lease, q);
          [Some(lease)] + Grants(l, sharedIrq, q, requests[1..])
        else []
  }

  lemma FirstFitUnique(m: Contents<()>, c: Constraint, g: Range, h: Range)
    requires FirstFit(m, c, g) && FirstFit(m, c, h)
    ensures g == h
  {
    assert Admissible(m, c, g) && Admissible(m, c, h);
  }

  /** A demand has one first fit, and the pools after it have one form. */
  lemma NewLeaseUnique(p: Pools, d: Demand, a: Lease, q: Pools, b: Lease, r: Pools)
    requires AllPools(p) && NewLease(p, d, a, q) && NewLease(p, d, b, r)
    ensures a == b && q == r
  {
    FirstFitUnique(p[a.pool], d.c, a.range, b.range);
    var m :| IntervalTrees.Granted(p[a.pool], a.range, a.state, m) && q == p[a.pool := m];
    var n :| IntervalTrees.Granted(p[a.pool], a.range, a.state, n) && r == p[a.pool := n];
    hide FirstFit, FreeAt, Held;
    NormalForm(m, n);
  }

  lemma NewLeaseMeansRoom(p: Pools, d: Demand, a: Lease, q: Pools)
    requires NewLease(p, d, a, q)
    ensures !Hopeless(p, d)
  {
    assert Admissible(p[a.pool], d.c, a.range);
  }

  /** One request on, what remains to be granted is what the rest of the requests gets out of the new pools. */
  lemma GrantsStep(l: Layout, sharedIrq: bool, p: Pools, requests: seq<ResourceConstraint>, lease: Option<Lease>,
                   q: Pools)
    requires AllPools(p) && requests != []
    requires var d := DemandOf(l, requests[0], sharedIrq);
             match d
             case SharedIrq => lease.None? && q == p
             case Never => false
             case From(_, _, _) => lease.Some? && NewLease(p, d, lease.value, q)
    ensures Grants(l, sharedIrq, p, requests) == [lease] + Grants(l, sharedIrq, q, requests[1..])
  {
    hide NewLease;
    var d := DemandOf(l, requests[0], sharedIrq);
    if d.From? {
      var lease', q' :| NewLease(p, From(d.pool, d.c, d.state), lease', q') &&
        Grants(l, sharedIrq, p, requests) == [Some(lease')] + Grants(l, sharedIrq, q', requests[1..]);
      NewLeaseUnique(p, d, lease.value, q, lease', q');
    }
  }

  lemma GrantsEnd(l: Layout, sharedIrq: bool, p: Pools, requests: seq<ResourceConstraint>)
    requires requests != [] ==> Hopeless(p, DemandOf(l, requests[0], sharedIrq))
    ensures Grants(l, sharedIrq, p, requests) == []
  {
    if requests != [] {
      var d := DemandOf(l, requests[0], sharedIrq);
      if d.From? {
        forall lease, q | NewLease(p, d, lease, q)
          ensures false
        {
          NewLeaseMeansRoom(p, d, lease, q);
        }
      }
    }
  }

  /** What a new manager can hand out: every interrupt but the shared one, every port and slot, guest memory outside the
      low MMIO window, and of MMIO that window, less 64 MiB below its last address, and what lies above guest memory. */
  predicate FreeAtFirst(l: Layout, maxSlots: nat, id: PoolId, x: int) {
    match id
    case LegacyIrqPool => l.irqBase < x <= l.irqMax
    case MsiIrqPool => l.msiBase <= x <= 1023
    case PioPool => 0 <= x <= 0xffff
    case KvmSlotPool => 0 <= x <= maxSlots
    case MemPool =>
      l.guestMemStart <= x <= l.guestMemEnd && (l.mmioLowStart <= x <= l.mmioLowEnd ==> l.HoleAvoided())
    case MmioPool =>
      || l.guestMemEnd < x <= l.guestPhysEnd
      || (l.mmioLowStart <= x <= l.mmioLowEnd &&
          (l.mmioLowEnd - 0x400_0000 <= x < l.mmioLowEnd ==> l.HoleAvoided() || !l.reserveMmio))
  }

  lemma OneRangeFree(min: nat, max: nat, x: int)
    ensures FreeAt(OneRange(min, max), x) <==> min <= x <= max
  {
    assert Range(min, max) in OneRange(min, max);
  }

  lemma FreshMemFree(l: Layout, x: int)
    requires l.WellFormed()
    ensures FreeAt(FreshMem(l), x) <==> FreeAtFirst(l, 0, MemPool, x)
  {
    var m := FreshMem(l);
    var whole, above := Range(l.guestMemStart, l.guestMemEnd), Range(l.mmioLowEnd + 1, l.guestMemEnd);
    var below := Range(l.guestMemStart, Max(l.guestMemStart, l.mmioLowStart - 1));
    assert l.HoleAvoided() ==> whole in m && m[whole].Free?;
    assert !l.HoleAvoided() ==> above in m && m[above].Free?;
    assert !l.HoleAvoided() && l.mmioLowStart > l.guestMemStart ==> below in m && m[below].Free?;
    assert forall k :: k in m ==> k == whole || k == above || k == below;
  }

  lemma FreshMmioFree(l: Layout, x: int)
    requires l.WellFormed()
    ensures FreeAt(FreshMmio(l), x) <==> FreeAtFirst(l, 0, MmioPool, x)
  {
    var m := FreshMmio(l);
    var far, low, last := Range(l.guestMemEnd + 1, l.guestPhysEnd), Range(l.mmioLowStart, l.mmioLowEnd),
      Range(l.mmioLowEnd, l.mmioLowEnd);
    assert far in m && m[far].Free?;
    if Reserves(l) {
      var r := Reserved(l);
      var below := Range(l.mmioLowStart, Max(l.mmioLowStart, r.min - 1));
      assert last in m && m[last].Free? && !m[r].Free?;
      assert l.mmioLowStart < r.min ==> below in m && m[below].Free?;
      assert forall k :: k in m ==> k == far || k == last || k == r || k == below;
    } else {
      assert low in m && m[low].Free?;
    }
  }

  lemma FreshValues(l: Layout, maxSlots: nat, p: Pools)
    requires l.WellFormed() && (forall id: PoolId :: id in p)
    requires p[MemPool] == FreshMem(l) && p[KvmSlotPool] == OneRange(0, maxSlots) && p[MmioPool] == FreshMmio(l)
    requires p[LegacyIrqPool] == OneRange(l.irqBase + 1, l.irqMax)
    requires p[MsiIrqPool] == OneRange(l.msiBase, MSI_IRQ_MAX) && p[PioPool] == OneRange(0, PIO_MAX)
    ensures forall id, x :: (id, x) in FreeValues(p) <==> FreeAtFirst(l, maxSlots, id, x)
  {
    hide FreeAt, OneRange, FreshMem, FreshMmio, Layout.WellFormed;
    forall id: PoolId, x
      ensures (id, x) in FreeValues(p) <==> FreeAtFirst(l, maxSlots, id, x)
    {
      match id {
        case LegacyIrqPool => OneRangeFree(l.irqBase + 1, l.irqMax, x);
        case MsiIrqPool => OneRangeFree(l.msiBase, MSI_IRQ_MAX, x);
        case PioPool => OneRangeFree(0, PIO_MAX, x);
        case KvmSlotPool => OneRangeFree(0, maxSlots, x);
        case MemPool => FreshMemFree(l, x);
        case MmioPool => FreshMmioFree(l, x);
      }
    }
  }

  class ResourceManager {
    const layout: Layout
    const maxSlots: nat
    const legacyIrqPool: IntervalTree<()>
    const msiIrqPool: IntervalTree<()>
    const pioPool: IntervalTree<()>
    const mmioPool: IntervalTree<()>
    const memPool: IntervalTree<()>
    const kvmMemSlotPool: IntervalTree<()>
    /** The contents of the six pools. */
    ghost var view: Pools

    /** `build`: wraps six freshly filled pools. */
    constructor Build(layout: Layout, maxSlots: nat, legacy: IntervalTree<()>, msi: IntervalTree<()>,
                      pio: IntervalTree<()>, mmio: IntervalTree<()>, mem: IntervalTree<()>, kvm: IntervalTree<()>)
      requires layout.WellFormed() && maxSlots <= U32_MAX
      requires legacy != msi && legacy != pio && legacy != mmio && legacy != mem && legacy != kvm
      requires msi != pio && msi != mmio && msi != mem && msi != kvm && pio != mmio && pio != mem && pio != kvm
      requires mmio != mem && mmio != kvm && mem != kvm
      requires PoolOk(legacy, Bounds(layout, maxSlots, LegacyIrqPool)) &&
          PoolOk(msi, Bounds(layout, maxSlots, MsiIrqPool))
      requires PoolOk(pio, Bounds(layout, maxSlots, PioPool)) && PoolOk(mmio, Bounds(layout, maxSlots, MmioPool))
      requires PoolOk(mem, Bounds(layout, maxSlots, MemPool)) && PoolOk(kvm, Bounds(layout, maxSlots, KvmSlotPool))
      ensures this.layout == layout && this.maxSlots == maxSlots && Trees() == {legacy, msi, pio, mmio, mem, kvm}
      ensures Valid() && (forall id: PoolId :: id in view)
      ensures view[LegacyIrqPool] == legacy.View() && view[MsiIrqPool] == msi.View() && view[PioPool] == pio.View()
      ensures view[MmioPool] == mmio.View() && view[MemPool] == mem.View() && view[KvmSlotPool] == kvm.View()
    {
      hide PoolOk, Entries, Bounds, SixPools;
      this.layout, this.maxSlots := layout, maxSlots;
      legacyIrqPool, msiIrqPool, pioPool := legacy, msi, pio;
      mmioPool, memPool, kvmMemSlotPool := mmio, mem, kvm;
      view := SixPools(legacy.View(), msi.View(), pio.View(), mmio.View(), mem.View(), kvm.View());
      new;
      Assembled();
    }

    /** `ResourceManager::new`: no insertion collides and the reservation below 4 GiB succeeds. */
    static method New(layout: Layout, maxSlots: nat) returns (m: ResourceManager)
      requires layout.WellFormed() && maxSlots <= U32_MAX
      ensures fresh(m) && fresh(m.Trees()) && m.Valid() && m.layout == layout && m.maxSlots == maxSlots
      ensures forall id: PoolId :: id in m.view
      ensures m.view[MemPool] == FreshMem(layout) && m.view[KvmSlotPool] == OneRange(0, maxSlots)
      ensures m.view[LegacyIrqPool] == OneRange(layout.irqBase + 1, layout.irqMax)
      ensures m.view[MsiIrqPool] == OneRange(layout.msiBase, MSI_IRQ_MAX) && m.view[PioPool] == OneRange(0, PIO_MAX)
      ensures m.view[MmioPool] == FreshMmio(layout)
      ensures forall id, x :: (id, x) in FreeValues(m.view) <==> FreeAtFirst(layout, maxSlots, id, x)
    {
      hide PoolOk, Entries, FreshMem, FreshMmio, OneRange, ResourceManager.Valid, IntervalTree.View, IntervalTree.Valid;
      var legacy, msi, pio := NewPortPools(layout);
      var mmio, mem, kvm := NewAddressPools(layout, maxSlots);
      m := new ResourceManager.Build(layout, maxSlots, legacy, msi, pio, mmio, mem, kvm);
      FreshValues(layout, maxSlots, m.view);
    }

    lemma Assembled()
      requires layout.WellFormed() && maxSlots <= U32_MAX
      requires forall i: PoolId, j: PoolId :: i != j ==> Tree(i) != Tree(j)
      requires forall id: PoolId :: id in view && view[id] == Tree(id).View()
      requires forall id: PoolId :: PoolOk(Tree(id), Bounds(layout, maxSlots, id))
      ensures Valid()
    {
    }

    function Tree(id: PoolId): IntervalTree<()> {
      match id
      case LegacyIrqPool => legacyIrqPool
      case MsiIrqPool => msiIrqPool
      case PioPool => pioPool
      case MmioPool => mmioPool
      case MemPool => memPool
      case KvmSlotPool => kvmMemSlotPool
    }

    ghost function Trees(): set<object> {
      {legacyIrqPool, msiIrqPool, pioPool, mmioPool, memPool, kvmMemSlotPool}
    }

    ghost predicate Wired() {
      && layout.WellFormed() && maxSlots <= U32_MAX
      && (forall i: PoolId, j: PoolId :: i != j ==> Tree(i) != Tree(j))
    }

    /** Six working pools, whatever ranges they were given. */
    ghost predicate Sound()
      reads this, Trees()
    {
      && Wired() && AllPools(view)
      && (forall id: PoolId :: Tree(id).Valid() && Tree(id).View() == view[id])
    }

    /** And each holds only addresses of its own. */
    ghost predicate Valid()
      reads this, Trees()
    {
      Sound() && forall id: PoolId :: InBounds(view[id], Bounds(layout, maxSlots, id))
    }

    /** `allocate` on one pool, then `update` on the grant where the source marks it. */
    method Take(id: PoolId, c: Constraint, state: NodeState<()>) returns (g: Option<Range>)
      requires Valid() && WordSized(c) && !state.Free?
      modifies `view, Tree(id)
      ensures Valid() && view == old(view)[id := Tree(id).View()]
      ensures Taken(old(view)[id], c, state, g, Tree(id).View())
      ensures g.Some? ==> Bounds(layout, maxSlots, id).Contains(g.value)
    {
      hide Taken, Pool, InBounds, Entries, IntervalNodes.Valid;
      g := TakeFrom(Tree(id), Bounds(layout, maxSlots, id), c, state);
      Refresh(id);
    }

    /** `free` on one pool; the manager stays valid when the range lies in the pool. */
    method GiveBack(id: PoolId, key: Range) returns (panicked: bool)
      requires Sound() && key.WellFormed()
      modifies `view, Tree(id)
      ensures panicked <==> !Releasable(old(view)[id], key)
      ensures !panicked ==>
        Sound() && Released(old(view)[id], key, Tree(id).View()) && view == old(view)[id := Tree(id).View()]
      ensures !panicked && old(Valid()) && Bounds(layout, maxSlots, id).Contains(key) ==> Valid()
    {
      hide Released, Releasable, Pool, InBounds, Entries;
      ghost var b := Bounds(layout, maxSlots, id);
      ghost var kept := Valid() && b.Contains(key);
      panicked := GiveBackTo(Tree(id), b, key);
      if !panicked {
        Refresh(id);
      }
    }

    /** One request of a device: an IRQ shared by all, a lease on the first fit, or nothing. */
    method AllocateOne(req: ResourceConstraint, sharedIrq: bool)
      returns (res: Option<Resource>, ghost lease: Option<Lease>)
      requires Valid() && Typed(req)
      modifies `view, Trees()
      ensures Valid() && (lease.None? ==> view == old(view))
      ensures res.None? ==> lease.None? && Hopeless(old(view), DemandOf(layout, req, sharedIrq))
      ensures res.Some? ==> Answers(layout, maxSlots, req, sharedIrq, res.value, lease)
      ensures lease.Some? ==> NewLease(old(view), DemandOf(layout, req, sharedIrq), lease.value, view)
      ensures lease.Some? ==> lease.value.state == if req.MmioAddress? || req.MemAddress? then Allocated else Valued(())
      ensures res.None? <==> Unmet(layout, sharedIrq, FreeValues(old(view)), req)
      ensures res.Some? ==> Serves(layout, sharedIrq, FreeValues(old(view)), req, res.value)
      ensures res.Some? ==> FreeValues(view) == FreeValues(old(view)) - Occupied(req, sharedIrq, res.value)
    {
      hide NewLease, Hopeless, Constraint.Allows, Bounds, DemandOf, Describe, Typed;
      hide Possible, FreeValues, Occupied;
      ghost var p := view;
      DemandTyped(layout, req, sharedIrq);
      NeverHopeless(view);
      lease := None;
      var demand := DemandOf(layout, req, sharedIrq);
      match demand {
      case SharedIrq =>
        res := Some(Resource.LegacyIrq(layout.irqBase));
      case Never =>
        res := None;
      case From(id, c, state) =>
        var g := TakeLease(id, c, state);
        if g.None? {
          res := None;
        } else {
          res := Some(Describe(req, g.value.min));
          lease := Some(Lease(id, g.value, state));
        }
      }
      if res.None? {
        HopelessIsUnmet(layout, sharedIrq, p, req);
      } else {
        GrantServes(layout, maxSlots, sharedIrq, p, req, res.value, lease, view);
      }
    }

    /** A grant of one pool as a lease. */
    method TakeLease(id: PoolId, c: Constraint, state: NodeState<()>) returns (g: Option<Range>)
      requires Valid() && WordSized(c) && !state.Free?
      modifies `view, Trees()
      ensures Valid()
      ensures g.None? ==> view == old(view) && Hopeless(old(view), From(id, c, state))
      ensures g.Some? ==> c.Allows(g.value) && Bounds(layout, maxSlots, id).Contains(g.value)
      ensures g.Some? ==> NewLease(old(view), From(id, c, state), Lease(id, g.value, state), view)
    {
      hide Taken, NewLease, Hopeless, Constraint.Allows, Bounds;
      g := Take(id, c, state);
      TakenMeans(old(view), id, c, state, g, Tree(id).View());
    }

    /** One resource of a device on its way back. */
    method FreeOne(res: Resource) returns (out: FreeOutcome)
      requires Sound() && TypedResource(res)
      modifies `view, Trees()
      ensures out.Freed? <==> FreeStep(layout, old(view), res, view)
      ensures !out.Freed? ==> FreeStops(layout, old(view), res, out)
      ensures out.Refused? ==> view == old(view)
      ensures !out.Panicked? ==> Sound()
      ensures old(Valid()) && (out.Refused? || (out.Freed? && InPool(layout, maxSlots, res))) ==> Valid()
    {
      hide Released, Releasable, InBounds, RouteOf, Bounds;
      var route := RouteOf(layout, res);
      match route
      case Nowhere => out := Freed;
      case Refuse(kind) => out := Refused(kind);
      case BadRange => out := Panicked;
      case Into(id, key) =>
        RouteIsRange(layout, res);
        var panicked := GiveBack(id, key);
        out := if panicked then Panicked else Freed;
    }

    /** `free_device_resources` on any list: the resources go back one after the other, up to the first that is refused
        or panics, and the rest of the list is left alone. */
    method FreeDeviceResources(resources: seq<Resource>) returns (out: FreeOutcome, ghost k: nat, ghost ps: seq<Pools>)
      requires Sound() && forall i :: 0 <= i < |resources| ==> TypedResource(resources[i])
      modifies `view, Trees()
      ensures FreeChain(layout, resources, k, ps) && ps[0] == old(view) && (out.Freed? <==> k == |resources|)
      ensures !out.Freed? ==> FreeStops(layout, ps[k], resources[k], out)
      ensures !out.Panicked? ==> Sound() && view == ps[k]
      ensures !out.Panicked? && old(Valid()) ==>
        (forall i :: 0 <= i < k ==> InPool(layout, maxSlots, resources[i])) ==> Valid()
    {
      hide FreeStep, FreeStops, TypedResource, InPool, ResourceManager.Sound, ResourceManager.Valid;
      k, ps := 0, [view];
      for i := 0 to |resources|
        invariant Sound() && |ps| == i + 1 && ps[0] == old(view) && ps[i] == view
        invariant forall j :: 0 <= j < i ==> FreeStep(layout, ps[j], resources[j], ps[j + 1])
        invariant old(Valid()) && (forall j :: 0 <= j < i ==> InPool(layout, maxSlots, resources[j])) ==> Valid()
      {
        out := FreeOne(resources[i]);
        if !out.Freed? {
          k := i;
          return;
        }
        ps := ps + [view];
      }
      out, k := Freed, |resources|;
    }

    /** `allocate_device_resources`: all requests or none. Which grants are made follows from the pools and the requests
        alone. The roll-back restores every pool exactly when each grant made before the failure is harmless;
        otherwise the caller sees another error, and the first harmful grant and those after it stay out, or a
        crash. */
    method AllocateDeviceResources(requests: seq<ResourceConstraint>, sharedIrq: bool)
      returns (r: TxResult, ghost leases: seq<Option<Lease>>)
      requires Valid() && forall i :: 0 <= i < |requests| ==> Typed(requests[i])
      modifies `view, Trees()
      ensures r.Granted? <==> Servable(layout, sharedIrq, FreeValues(old(view)), requests)
      ensures r.Granted? ==>
                && Served(layout, sharedIrq, FreeValues(old(view)), requests, r.resources)
                && |r.resources| == |requests|
                && FreeValues(view) == LeftAfter(FreeValues(old(view)), requests, sharedIrq, r.resources, |requests|)
      ensures leases == Grants(layout, sharedIrq, old(view), requests)
      ensures r.Granted? <==> |leases| == |requests|
      ensures r.Granted? ==>
                && Valid() && |r.resources| == |requests| &&
                    Backed(layout, maxSlots, requests, sharedIrq, r.resources, leases)
                && Lent(old(view), LeaseSet(leases), view)
      ensures !r.Granted? ==> |leases| < |requests| && Stuck(layout, maxSlots, old(view), requests, sharedIrq, leases)
      ensures !r.Granted? ==>
                ((forall i :: 0 <= i < |leases| ==> Harmless(layout, leases[i])) <==> r == Failed(NoAvailResource))
      ensures r == Failed(NoAvailResource) ==> Valid() && view == old(view)
      ensures r.Failed? && r.error.InvalidResourceRange? ==> Valid() && view != old(view)
      ensures r.Failed? && r.error.InvalidResourceRange? ==>
          exists k: nat :: LeftOut(this, old(view), leases, k, r.error.kind)
      ensures r.Crashed? ==>
                exists k :: 0 <= k < |leases| && FirstHarm(layout, leases, k) && leases[k].value.pool == KvmSlotPool
    {
      hide Lent, InBounds, NewLease, Answers, Harmless, AllPools, Hopeless, Stuck, FirstHarm, Backed, Typed, DemandOf,
        Grants, ResourceManager.Valid;
      hide Serves, Unmet, FreeValues, Occupied, LeftAfter, Served, Servable;
      var resources: seq<Resource> := [];
      leases := [];
      ghost var p := view;
      StartLending(requests, sharedIrq);
      ServedNone(layout, sharedIrq, FreeValues(p), requests);
      assert requests[0..] == requests;
      for i := 0 to |requests|
        invariant |resources| == |leases| == i
        invariant Valid() && Backed(layout, maxSlots, requests, sharedIrq, resources, leases)
        invariant Lent(p, LeaseSet(leases), view) && Distinct(leases)
        invariant Served(layout, sharedIrq, FreeValues(p), requests, resources)
        invariant FreeValues(view) == LeftAfter(FreeValues(p), requests, sharedIrq, resources, i)
        invariant Grants(layout, sharedIrq, p, requests) == leases + Grants(layout, sharedIrq, view, requests[i..])
      {
        ghost var before := view;
        ValidParts();
        var res, lease := AllocateOne(requests[i], sharedIrq);
        if res.None? {
          GrantsEnd(layout, sharedIrq, view, requests[i..]);
          UnmetEnds(layout, sharedIrq, FreeValues(p), requests, resources);
          StuckHere(layout, maxSlots, p, requests, sharedIrq, resources, leases, view);
          r := RollBack(resources, requests, sharedIrq, leases, p);
          return;
        }
        Granting(before, requests, i, sharedIrq, res.value, lease);
        LendNext(p, leases, before, DemandOf(layout, requests[i], sharedIrq), lease, view);
        BackedNext(layout, maxSlots, requests, sharedIrq, resources, leases, res.value, lease);
        ServedNext(layout, sharedIrq, FreeValues(p), requests, resources, res.value);
        resources := resources + [res.value];
        leases := leases + [lease];
      }
      GrantsEnd(layout, sharedIrq, view, requests[|requests|..]);
      AllServed(layout, sharedIrq, FreeValues(p), requests, resources);
      r := TxResult.Granted(resources);
    }

    lemma Granting(before: Pools, requests: seq<ResourceConstraint>, i: nat, sharedIrq: bool, res: Resource,
                   lease: Option<Lease>)
      requires i < |requests| && AllPools(before) && Answers(layout, maxSlots, requests[i], sharedIrq, res, lease)
      requires lease.None? ==> view == before
      requires lease.Some? ==> NewLease(before, DemandOf(layout, requests[i], sharedIrq), lease.value, view)
      ensures Grants(layout, sharedIrq, before, requests[i..]) == [lease] + Grants(layout, sharedIrq, view,
          requests[i + 1..])
    {
      hide NewLease, Grants;
      assert requests[i..][1..] == requests[i + 1..];
      GrantsStep(layout, sharedIrq, before, requests[i..], lease, view);
    }

    /** After a request that cannot be met, what was granted goes back, and the caller learns how that went. */
    method RollBack(resources: seq<Resource>, ghost requests: seq<ResourceConstraint>, ghost sharedIrq: bool,
                    ghost leases: seq<Option<Lease>>, ghost p: Pools) returns (r: TxResult)
      requires Valid() && Backed(layout, maxSlots, requests, sharedIrq, resources, leases) &&
          Lent(p, LeaseSet(leases), view)
      modifies `view, Trees()
      ensures !r.Granted?
      ensures (forall i :: 0 <= i < |leases| ==> Harmless(layout, leases[i])) <==> r == Failed(NoAvailResource)
      ensures r == Failed(NoAvailResource) ==> Valid() && view == p
      ensures r.Failed? && r.error.InvalidResourceRange? ==> Valid() && view != p
      ensures r.Failed? && r.error.InvalidResourceRange? ==> exists k: nat :: LeftOut(this, p, leases, k, r.error.kind)
      ensures r.Crashed? ==>
                exists k :: 0 <= k < |leases| && FirstHarm(layout, leases, k) && leases[k].value.pool == KvmSlotPool
    {
      hide Lent, Answers, Harmless, Typed, FreeStep, FreeStops, InPool, Distinct, LeaseSet, ResourceManager.Valid,
          Layout.WellFormed;
      ValidParts();
      ValidIsSound();
      BackedTyped(layout, maxSlots, requests, sharedIrq, resources, leases);
      assert {} + LeaseSet(leases) == LeaseSet(leases);
      var out, k, ps := FreeDeviceResources(resources);
      LeasedFree(layout, maxSlots, requests, sharedIrq, resources, leases, p, {}, k, ps);
      assert {} + LeaseSet(leases[k..]) == LeaseSet(leases[k..]);
      if out.Freed? {
        LeaseSetEmpty(leases[k..]);
        NothingLent(p, view);
        return Failed(NoAvailResource);
      }
      LeasedStop(layout, maxSlots, requests[k], sharedIrq, resources[k], leases, k, p, {}, ps[k], out);
      assert FirstHarm(layout, leases, k);
      if out.Panicked? {
        return Crashed;
      }
      LentIsChanged(p, LeaseSet(leases[k..]), view);
      assert LeftOut(this, p, leases, k, out.kind);
      r := Failed(InvalidResourceRange(out.kind));
    }

    lemma StartLending(requests: seq<ResourceConstraint>, sharedIrq: bool)
      requires Valid() && forall i :: 0 <= i < |requests| ==> Typed(requests[i])
      ensures Lent(view, LeaseSet([]), view) && Backed(layout, maxSlots, requests, sharedIrq, [], [])
    {
      LendNothing(view);
      assert LeaseSet([]) == {};
    }

    lemma ValidParts()
      requires Valid()
      ensures layout.WellFormed() && maxSlots <= U32_MAX && AllPools(view) && forall id: PoolId :: id in view
    {
    }

    lemma ValidIsSound()
      requires Valid()
      ensures Sound()
    {
    }

    ghost method Refresh(id: PoolId)
      requires Wired() && AllPools(view) && Tree(id).Valid() && Pool(Tree(id).View())
      requires forall j: PoolId :: j != id ==> Tree(j).Valid() && Tree(j).View() == view[j]
      modifies `view
      ensures Sound() && view == old(view)[id := Tree(id).View()]
    {
      hide Pool, IntervalNodes.Valid, Entries;
      PutPool(view, id, Tree(id).View());
      view := view[id := Tree(id).View()];
    }
  }

  /** The roll-back stopped at grant `k`, the first harmful one, of the pool named: it and those after it stay out. */
  ghost predicate LeftOut(mgr: ResourceManager, p: Pools, leases: seq<Option<Lease>>, k: nat, kind: PoolId)
    reads mgr`view
  {
    && k < |leases| && FirstHarm(mgr.layout, leases, k) && leases[k].Some? && leases[k].value.pool == kind
    && Lent(p, LeaseSet(leases[k..]), mgr.view)
  }

  /** The request after the granted ones cannot be met in the state they lead to. */
  ghost predicate Stuck(l: Layout, maxSlots: nat, p: Pools, requests: seq<ResourceConstraint>, sharedIrq: bool,
                        leases: seq<Option<Lease>>)
    requires |leases| < |requests|
  {
    && (exists resources :: Backed(l, maxSlots, requests, sharedIrq, resources, leases))
    && (exists q :: Lent(p, LeaseSet(leases), q) && Hopeless(q, DemandOf(l, requests[|leases|], sharedIrq)))
  }

  lemma StuckHere(l: Layout, maxSlots: nat, p: Pools, requests: seq<ResourceConstraint>, sharedIrq: bool,
                  resources: seq<Resource>, leases: seq<Option<Lease>>, q: Pools)
    requires |leases| < |requests| && Backed(l, maxSlots, requests, sharedIrq, resources, leases)
    requires Lent(p, LeaseSet(leases), q) && Hopeless(q, DemandOf(l, requests[|leases|], sharedIrq))
    ensures Stuck(l, maxSlots, p, requests, sharedIrq, leases)
  {
    hide Backed, Lent, Hopeless, DemandOf;
  }

  /** The roll-back is not exact: once the last port has been granted, a later failure leaks it. */
  method LastPortLeaks(l: Layout) returns (m: ResourceManager, r: TxResult, ghost before: Pools)
    requires l.WellFormed()
    ensures r == Failed(InvalidResourceRange(PioPool)) && m.view != before
  {
    hide Lent, Stuck, ResourceManager.Valid, ResourceManager.Sound, Backed, OneRange, FreshMem, FreshMmio, Harmless,
        Grants;
    m := ResourceManager.New(l, 0);
    before := m.view;
    var lastPort := PioAddress(Some((PIO_MAX, PIO_MAX)), 1, 1);
    var taken := ResourceConstraint.LegacyIrq(Some(l.irqBase));
    ghost var leases;
    r, leases := m.AllocateDeviceResources([lastPort, taken], false);
    NeverGranted(m, [lastPort, taken], r, leases);
    LastPortStuck(l, m.maxSlots, before, lastPort, taken, leases);
    assert !Harmless(m.layout, leases[0]);
    assert !r.Crashed?;
    assert r.error.InvalidResourceRange?;
    assert r.error.kind == PioPool;
  }

  lemma NeverGranted(m: ResourceManager, requests: seq<ResourceConstraint>, r: TxResult, leases: seq<Option<Lease>>)
    requires |requests| == 2 && DemandOf(m.layout, requests[1], false).Never?
    requires r.Granted? ==> |r.resources| == 2 && Backed(m.layout, m.maxSlots, requests, false, r.resources, leases)
    ensures !r.Granted?
  {
    if r.Granted? {
      NoAnswer(m, requests[1], r.resources[1], leases[1]);
    }
  }

  lemma NoAnswer(m: ResourceManager, req: ResourceConstraint, res: Resource, lease: Option<Lease>)
    requires DemandOf(m.layout, req, false).Never?
    ensures !Answers(m.layout, m.maxSlots, req, false, res, lease)
  {
  }

  lemma LastPortStuck(l: Layout, maxSlots: nat, p: Pools, lastPort: ResourceConstraint, taken: ResourceConstraint,
                      leases: seq<Option<Lease>>)
    requires l.WellFormed() && PioPool in p && p[PioPool] == OneRange(0, PIO_MAX)
    requires lastPort == PioAddress(Some((PIO_MAX, PIO_MAX)), 1, 1) &&
        taken == ResourceConstraint.LegacyIrq(Some(l.irqBase))
    requires |leases| < 2 && Stuck(l, maxSlots, p, [lastPort, taken], false, leases)
    ensures |leases| == 1 && leases[0].Some? && leases[0].value.pool == PioPool && !Harmless(l, leases[0])
  {
    hide Lent, Distinct, Layout.WellFormed;
    var requests := [lastPort, taken];
    var port, all := Range(PIO_MAX, PIO_MAX), Range(0, PIO_MAX);
    assert all in p[PioPool] && p[PioPool][all].Free? && all.Contains(port);
    assert Admissible(p[PioPool], DemandOf(l, lastPort, false).c, port);
    var q :| Lent(p, LeaseSet(leases), q) && Hopeless(q, DemandOf(l, requests[|leases|], false));
    if LeaseSet(leases) == {} {
      NothingLent(p, q);
    }
    assert |leases| == 0 ==> LeaseSet(leases) == {};
    var resources :| Backed(l, maxSlots, requests, false, resources, leases);
    assert Answers(l, maxSlots, requests[0], false, resources[0], leases[0]);
  }

  lemma GrantsHead(l: Layout, sharedIrq: bool, p: Pools, requests: seq<ResourceConstraint>)
    requires Grants(l, sharedIrq, p, requests) != [] && Grants(l, sharedIrq, p, requests)[0].Some?
    ensures requests != []
    ensures exists q :: NewLease(p, DemandOf(l, requests[0], sharedIrq), Grants(l, sharedIrq, p, requests)[0].value, q)
  {
    hide NewLease;
    var d := DemandOf(l, requests[0], sharedIrq);
    var lease, q :| NewLease(p, From(d.pool, d.c, d.state), lease, q) &&
      Grants(l, sharedIrq, p, requests) == [Some(lease)] + Grants(l, sharedIrq, q, requests[1..]);
  }

  lemma FirstPort(l: Layout, maxSlots: nat, p: Pools, requests: seq<ResourceConstraint>, leases: seq<Option<Lease>>)
    requires requests == [PioAddress(None, 1, 1)] && PioPool in p && p[PioPool] == OneRange(0, PIO_MAX)
    requires leases == Grants(l, false, p, requests)
    requires |leases| < 1 ==> Stuck(l, maxSlots, p, requests, false, leases)
    ensures |leases| >= 1 && (leases[0].Some? ==> leases[0].value.range.min == 0)
  {
    hide Lent, Grants, NewLease;
    var d := DemandOf(l, requests[0], false);
    var port, all := Range(0, 0), Range(0, PIO_MAX);
    assert all in p[PioPool] && p[PioPool][all].Free? && all.Contains(port);
    assert Admissible(p[PioPool], d.c, port);
    if |leases| == 0 {
      var q :| Lent(p, LeaseSet(leases), q) && Hopeless(q, d);
      assert LeaseSet(leases) == {};
      NothingLent(p, q);
    } else if leases[0].Some? {
      GrantsHead(l, false, p, requests);
      var q :| NewLease(p, d, leases[0].value, q);
      FitsFirst(p, d, leases[0].value, q);
    }
  }

  lemma FitsFirst(p: Pools, d: Demand, l: Lease, q: Pools)
    requires NewLease(p, d, l, q)
    ensures d.From? && l.pool == d.pool && l.pool in p && FirstFit(p[l.pool], d.c, l.range)
  {
  }

  /** The pools and the requests decide the grants: the first request for a port on a fresh manager gets port zero. */
  method FirstPortGranted(l: Layout) returns (m: ResourceManager, r: TxResult)
    requires l.WellFormed()
    ensures r == TxResult.Granted([PioAddressRange(0, 1)])
  {
    hide Lent, Stuck, ResourceManager.Valid, ResourceManager.Sound, OneRange, FreshMem, FreshMmio, Harmless, Grants,
      LeftOut, Layout.WellFormed;
    m := ResourceManager.New(l, 0);
    ghost var p := m.view;
    ghost var leases;
    r, leases := m.AllocateDeviceResources([PioAddress(None, 1, 1)], false);
    FirstPort(m.layout, m.maxSlots, p, [PioAddress(None, 1, 1)], leases);
    assert Answers(m.layout, m.maxSlots, PioAddress(None, 1, 1), false, r.resources[0], leases[0]);
  }

  lemma GrantInBounds(m: Contents<()>, c: Constraint, g: Range, b: Range)
    requires InBounds(m, b) && Admissible(m, c, g)
    ensures b.Contains(g) && g.WellFormed()
  {
  }

  lemma GrantMarked(m: Contents<()>, g: Range, n: Contents<()>, state: NodeState<()>)
    requires IntervalTrees.Granted(m, g, Allocated, n) && !state.Free?
    ensures g in n && !n[g].Free? && IntervalTrees.Granted(m, g, state, n[g := state])
    ensures n[g] == Allocated && n[g := n[g]] == n
  {
    hide FreeAt, Disjoint, Coalesced, Held;
    HeldHere(n, Held(m), g);
    MarkedHeld(n, g, state);
    MarkedFree(n, g, state);
  }

  lemma HeldHere(n: Contents<()>, h: Contents<()>, g: Range)
    requires Held(n) == h[g := Allocated]
    ensures g in n && n[g] == Allocated && n[g := n[g]] == n
  {
    assert g in Held(n);
  }

  lemma MarkedHeld(n: Contents<()>, g: Range, state: NodeState<()>)
    requires g in n && !n[g].Free? && !state.Free?
    ensures Held(n[g := state]) == Held(n)[g := state]
  {
  }

  lemma MarkedFree(n: Contents<()>, g: Range, state: NodeState<()>)
    requires g in n && !n[g].Free? && !state.Free?
    ensures forall x :: FreeAt(n[g := state], x) <==> FreeAt(n, x)
    ensures Disjoint(n) ==> Disjoint(n[g := state])
    ensures Coalesced(n) ==> Coalesced(n[g := state])
  {
    var k := n[g := state];
    assert forall j :: j in k <==> j in n;
    assert forall j :: j in k ==> (k[j].Free? <==> n[j].Free?);
    forall x
      ensures FreeAt(k, x) <==> FreeAt(n, x)
    {
      if FreeAt(n, x) {
        var j :| j in n && n[j].Free? && j.Has(x);
        assert j in k && k[j].Free?;
      }
    }
  }
}
