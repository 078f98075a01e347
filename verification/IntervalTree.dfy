/** Closed `u64` ranges and allocation constraints. */
module Ranges {
  import opened Wrappers

  const U64_MAX: nat := 0xffff_ffff_ffff_ffff

  datatype Range = Range(min: nat, max: nat) {
    predicate WellFormed() {
      min <= max <= U64_MAX
    }

    /** The one well-formed range that `Range::new` refuses. */
    predicate Full() {
      min == 0 && max == U64_MAX
    }

    predicate Has(x: int) {
      min <= x <= max
    }

    function Len(): int {
      max - min + 1
    }

    predicate Intersects(other: Range) {
      Max(min, other.min) <= Min(max, other.max)
    }

    predicate Contains(other: Range) {
      min <= other.min && other.max <= max
    }

    /** The derived order on ranges: by `min`, then by `max`. */
    predicate Less(other: Range) {
      min < other.min || (min == other.min && max < other.max)
    }

    /** Raises `min` to a multiple of `align`; the bit test of the source is "is a power of two". */
    function AlignTo(align: nat): Option<Range> {
      if align <= 1 then Some(this)
      else if !PowerOfTwo(align) then None
      else if min + (align - 1) > U64_MAX then None
      else
        var up := (min + (align - 1)) / align * align;
        if up <= max then Some(Range(up, max)) else None
    }
  }

  predicate PowerOfTwo(n: nat) {
    n == 1 || (n > 0 && n % 2 == 0 && PowerOfTwo(n / 2))
  }

  datatype Constraint = Constraint(size: nat, min: nat, max: nat, align: nat) {
    /** The part of `key` that respects the boundaries of the constraint. */
    function Clip(key: Range): Range {
      Range(Max(key.min, min), Min(key.max, max))
    }

    /** Whether a granted range has the requested size, alignment and boundaries. */
    predicate Allows(r: Range) {
      && r.WellFormed() && size > 0 && r.Len() == size
      && min <= r.min && r.max <= max
      && (align <= 1 || (PowerOfTwo(align) && r.min % align == 0))
    }
  }

  /** An unconstrained request for `size` consecutive values. */
  function AnyOf(size: nat): Constraint {
    Constraint(size, 0, U64_MAX, 1)
  }

  lemma {:induction false} PowerDivides(a: nat, b: nat)
    requires PowerOfTwo(a) && PowerOfTwo(b) && a <= b
    ensures b % a == 0
    decreases b
  {
    if a == b {
    } else if a == 1 {
    } else {
      PowerDivides(a / 2, b / 2);
      var q := b / 2 / (a / 2);
      assert b / 2 == a / 2 * q;
      assert b == a * q;
      MultipleMod(a, q);
    }
  }

  lemma MultipleMod(a: nat, q: nat)
    requires a > 0
    ensures (a * q) % a == 0
  {
    assert a * q == q * a + 0;
    DivModUnique(q * a, a, q, 0);
  }

  lemma DivModUnique(x: int, a: int, q: int, r: int)
    requires a > 0 && 0 <= r < a && x == q * a + r
    ensures x / a == q && x % a == r
  {
    assert x == (x / a) * a + x % a;
    var d := x / a - q;
    assert d * a == r - x % a;
    assert d >= 1 ==> d * a >= a;
    assert d <= -1 ==> d * a <= -a;
  }

  lemma RoundUp(v: nat, a: nat)
    requires a > 0
    ensures var up := (v + (a - 1)) / a * a;
            && up % a == 0 && v <= up < v + a
            && (forall x: nat :: v <= x && x % a == 0 ==> up <= x)
  {
    var q := (v + (a - 1)) / a;
    var up := q * a;
    assert v + (a - 1) == q * a + (v + (a - 1)) % a;
    DivModUnique(up, a, q, 0);
    forall x: nat | v <= x && x % a == 0
      ensures up <= x
    {
      var p := x / a;
      assert x == p * a;
      assert p < q ==> p * a <= (q - 1) * a == up - a;
      assert p * a >= q * a;
    }
  }

  lemma {:induction false} PowersMultiply(a: nat, b: nat)
    requires PowerOfTwo(a) && PowerOfTwo(b)
    ensures PowerOfTwo(a * b)
    decreases a
  {
    if a != 1 {
      var h := a / 2;
      PowersMultiply(h, b);
      DoublePower(h * b);
      assert a * b == 2 * (h * b) by {
        assert a == 2 * h;
      }
    }
  }

  lemma DoublePower(n: nat)
    requires PowerOfTwo(n)
    ensures PowerOfTwo(2 * n)
  {
  }

  lemma TopIsPower()
    ensures PowerOfTwo(U64_MAX + 1)
  {
    assert PowerOfTwo(16);
    PowersMultiply(16, 16);
    PowersMultiply(0x100, 0x100);
    PowersMultiply(0x1_0000, 0x1_0000);
    PowersMultiply(0x1_0000_0000, 0x1_0000_0000);
  }

  /** `AlignTo` finds the lowest aligned start, and gives up only when the range holds none. */
  lemma AlignToIsLowest(key: Range, align: nat)
    requires key.WellFormed() && align <= U64_MAX
    ensures var a := key.AlignTo(align);
            && (a.Some? ==>
                  && a.value.max == key.max && key.min <= a.value.min <= key.max
                  && (align <= 1 || (PowerOfTwo(align) && a.value.min % align == 0)))
            && (forall x: nat :: key.Has(x) && (align <= 1 || (PowerOfTwo(align) && x % align == 0))
                  ==> a.Some? && a.value.min <= x)
  {
    if align > 1 && PowerOfTwo(align) {
      RoundUp(key.min, align);
      var up := (key.min + (align - 1)) / align * align;
      TopIsPower();
      PowerDivides(align, U64_MAX + 1);
      if key.min + (align - 1) > U64_MAX {
        forall x: nat | key.Has(x) && x % align == 0
          ensures false
        {
          AlignedGap(x, U64_MAX + 1, align);
        }
      }
    }
  }

  lemma AlignedGap(x: nat, y: nat, a: nat)
    requires a > 0 && x % a == 0 && y % a == 0 && x < y
    ensures x + a <= y
  {
    var p, q := x / a, y / a;
    assert x == p * a && y == q * a;
    assert q <= p ==> q * a <= p * a;
    assert (p + 1) * a <= q * a;
  }
}

/** The nodes of the interval tree: an AVL tree of pairwise disjoint ranges. */
module IntervalNodes {
  import opened Wrappers
  import opened Ranges

  datatype NodeState<+T> = Free | Allocated | Valued(value: T) {
    function Data(): Option<T> {
      if Valued? then Some(value) else None
    }
  }

  /** `Leaf` is the absent child; `height` and `maxKey` are the cached fields of the source. */
  datatype Tree<T> =
    | Leaf
    | Node(key: Range, data: NodeState<T>, left: Tree<T>, right: Tree<T>, height: nat, maxKey: nat)

  type Contents<T> = map<Range, NodeState<T>>

  function Height<T>(t: Tree<T>): nat {
    if t.Leaf? then 0 else t.height
  }

  function MaxKey<T>(t: Tree<T>): nat {
    if t.Leaf? then 0 else t.maxKey
  }

  /** What a tree stores, forgetting its shape. */
  ghost function Entries<T>(t: Tree<T>): Contents<T> {
    match t
    case Leaf => map[]
    case Node(k, d, l, r, _, _) => Glue(Entries(l), k, d, Entries(r))
  }

  ghost function Glue<T>(a: Contents<T>, k: Range, d: NodeState<T>, b: Contents<T>): Contents<T> {
    a[k := d] + b
  }

  /** Search-tree order on disjoint ranges that all lie in `[lo, hi]`. */
  ghost predicate Ordered<T>(t: Tree<T>, lo: int, hi: int) {
    t.Node? ==>
      && lo <= t.key.min <= t.key.max <= hi
      && Ordered(t.left, lo, t.key.min - 1)
      && Ordered(t.right, t.key.max + 1, hi)
  }

  /** Both caches are exact and sibling heights differ by at most one. */
  ghost predicate Balanced<T>(t: Tree<T>) {
    t.Node? ==>
      && Balanced(t.left) && Balanced(t.right)
      && -1 <= Height(t.left) - Height(t.right) <= 1
      && CacheExact(t)
  }

  ghost predicate CacheExact<T>(t: Tree<T>)
    requires t.Node?
  {
    && t.height == Max(Height(t.left), Height(t.right)) + 1
    && t.maxKey == Max(MaxKey(t.left), Max(MaxKey(t.right), t.key.max))
  }

  ghost predicate Valid<T>(t: Tree<T>, lo: int, hi: int) {
    Ordered(t, lo, hi) && Balanced(t)
  }

  lemma {:induction false} KeysInBounds<T>(t: Tree<T>, lo: int, hi: int)
    requires Ordered(t, lo, hi)
    ensures forall k :: k in Entries(t) ==> lo <= k.min <= k.max <= hi
  {
    if t.Node? {
      KeysInBounds(t.left, lo, t.key.min - 1);
      KeysInBounds(t.right, t.key.max + 1, hi);
    }
  }

  lemma {:induction false} WidenBounds<T>(t: Tree<T>, lo: int, hi: int, lo': int, hi': int)
    requires Ordered(t, lo, hi) && lo' <= lo && hi <= hi'
    ensures Ordered(t, lo', hi')
  {
    if t.Node? {
      WidenBounds(t.left, lo, t.key.min - 1, lo', t.key.min - 1);
      WidenBounds(t.right, t.key.max + 1, hi, t.key.max + 1, hi');
    }
  }

  lemma GlueRotates<T>(a: Contents<T>, k: Range, d: NodeState<T>, b: Contents<T>,
                       l: Range, e: NodeState<T>, c: Contents<T>)
    ensures Glue(a, k, d, Glue(b, l, e, c)) == Glue(Glue(a, k, d, b), l, e, c)
  {
  }

  lemma GlueInserts<T>(a: Contents<T>, k: Range, d: NodeState<T>, b: Contents<T>, l: Range, e: NodeState<T>)
    requires l != k
    ensures Glue(a, k, d, b[l := e]) == Glue(a, k, d, b)[l := e]
    ensures l !in b ==> Glue(a[l := e], k, d, b) == Glue(a, k, d, b)[l := e]
  {
  }

  lemma GlueDeletes<T>(a: Contents<T>, k: Range, d: NodeState<T>, b: Contents<T>, l: Range)
    requires l != k
    ensures l !in a ==> Glue(a, k, d, b - {l}) == Glue(a, k, d, b) - {l}
    ensures l !in b ==> Glue(a - {l}, k, d, b) == Glue(a, k, d, b) - {l}
  {
  }

  function Singleton<T>(key: Range, data: NodeState<T>): Tree<T> {
    Node(key, data, Leaf, Leaf, 1, key.max)
  }

  /** Some stored range intersects `key`. */
  ghost predicate Overlaps<T>(m: Contents<T>, key: Range) {
    exists k :: k in m && k.Intersects(key)
  }

  lemma GlueOverlaps<T>(a: Contents<T>, k: Range, d: NodeState<T>, b: Contents<T>, key: Range)
    ensures Overlaps(Glue(a, k, d, b), key) <==> k.Intersects(key) || Overlaps(a, key) || Overlaps(b, key)
  {
    var g := Glue(a, k, d, b);
    assert k in g;
    assert forall x :: x in a || x in b ==> x in g;
  }

  /** The same node with both caches recomputed. */
  function Cached<T>(t: Tree<T>): (r: Tree<T>)
    requires t.Node?
    ensures r.Node? && CacheExact(r) && Entries(r) == Entries(t)
  {
    t.(height := Max(Height(t.left), Height(t.right)) + 1,
       maxKey := Max(MaxKey(t.left), Max(MaxKey(t.right), t.key.max)))
  }

  /** `r` stores what `t` stores, in the same order. */
  ghost predicate SameOrder<T>(t: Tree<T>, r: Tree<T>) {
    && Entries(r) == Entries(t)
    && forall lo, hi :: Ordered(t, lo, hi) ==> Ordered(r, lo, hi)
  }

  method RotateLeft<T>(t: Tree<T>) returns (r: Tree<T>)
    requires t.Node? && t.right.Node?
    ensures SameOrder(t, r)
    ensures r.Node? && r.left.Node? && CacheExact(r) && CacheExact(r.left)
    ensures r.left.left == t.left && r.left.right == t.right.left && r.right == t.right.right
  {
    GlueRotates(Entries(t.left), t.key, t.data, Entries(t.right.left), t.right.key, t.right.data,
        Entries(t.right.right));
    var newRoot := t.right;
    var self := Cached(t.(right := newRoot.left));
    r := Cached(newRoot.(left := self));
  }

  method RotateRight<T>(t: Tree<T>) returns (r: Tree<T>)
    requires t.Node? && t.left.Node?
    ensures SameOrder(t, r)
    ensures r.Node? && r.right.Node? && CacheExact(r) && CacheExact(r.right)
    ensures r.right.right == t.right && r.right.left == t.left.right && r.left == t.left.left
  {
    GlueRotates(Entries(t.left.left), t.left.key, t.left.data, Entries(t.left.right), t.key, t.data, Entries(t.right));
    var newRoot := t.left;
    var self := Cached(t.(left := newRoot.right));
    r := Cached(newRoot.(right := self));
  }

  /** A node with balanced subtrees whose own balance may be off by one too many. */
  ghost predicate Rebalanceable<T>(t: Tree<T>) {
    && t.Node? && Balanced(t.left) && Balanced(t.right)
    && -2 <= Height(t.left) - Height(t.right) <= 2
  }

  method RotateLeftSuccessor<T>(t: Tree<T>) returns (r: Tree<T>)
    requires Rebalanceable(t) && Height(t.left) == Height(t.right) + 2
    ensures SameOrder(t, r) && r.Node? && Balanced(r)
    ensures Height(t.left) <= Height(r) <= Height(t.left) + 1
  {
    var left := t.left;
    assert Balanced(left.left) && Balanced(left.right) && CacheExact(left);
    if Height(left.left) < Height(left.right) {
      var rotated := RotateLeft(left);
      assert Balanced(left.right.left) && Balanced(left.right.right) && CacheExact(left.right);
      r := RotateRight(Cached(t.(left := rotated)));
    } else {
      r := RotateRight(t);
    }
  }

  method RotateRightSuccessor<T>(t: Tree<T>) returns (r: Tree<T>)
    requires Rebalanceable(t) && Height(t.right) == Height(t.left) + 2
    ensures SameOrder(t, r) && r.Node? && Balanced(r)
    ensures Height(t.right) <= Height(r) <= Height(t.right) + 1
  {
    var right := t.right;
    assert Balanced(right.left) && Balanced(right.right) && CacheExact(right);
    if Height(right.left) > Height(right.right) {
      var rotated := RotateRight(right);
      assert Balanced(right.left.left) && Balanced(right.left.right) && CacheExact(right.left);
      r := RotateLeft(Cached(t.(right := rotated)));
    } else {
      r := RotateLeft(t);
    }
  }

  /** `updated_node`: its precondition keeps the `unreachable!()` arm of `rotate` unreachable. */
  method UpdatedNode<T>(t: Tree<T>) returns (r: Tree<T>)
    requires Rebalanceable(t)
    ensures SameOrder(t, r) && r.Node? && Balanced(r)
    ensures var h := Max(Height(t.left), Height(t.right));
            if -1 <= Height(t.left) - Height(t.right) <= 1 then Height(r) == h + 1 else h <= Height(r) <= h + 1
  {
    var self := Cached(t);
    var balance := Height(self.left) - Height(self.right);
    if balance == 2 {
      r := RotateLeftSuccessor(self);
    } else if balance == -2 {
      r := RotateRightSuccessor(self);
    } else {
      r := self;
    }
  }

  lemma InsertRight<T>(t: Tree<T>, key: Range, data: NodeState<T>, u: Tree<T>, lo: int, hi: int)
    requires t.Node? && Ordered(t, lo, hi) && !t.key.Intersects(key) && t.key.Less(key) && key.min <= key.max <= hi
    ensures Overlaps(Entries(t), key) <==> Overlaps(Entries(t.right), key)
    ensures t.key.max + 1 <= key.min
    ensures Ordered(u, t.key.max + 1, hi) && Entries(u) == Entries(t.right)[key := data] ==>
              Ordered(t.(right := u), lo, hi) && Entries(t.(right := u)) == Entries(t)[key := data]
  {
    KeysInBounds(t.left, lo, t.key.min - 1);
    GlueOverlaps(Entries(t.left), t.key, t.data, Entries(t.right), key);
    GlueInserts(Entries(t.left), t.key, t.data, Entries(t.right), key, data);
  }

  lemma InsertLeft<T>(t: Tree<T>, key: Range, data: NodeState<T>, u: Tree<T>, lo: int, hi: int)
    requires t.Node? && Ordered(t, lo, hi) && !t.key.Intersects(key) && !t.key.Less(key) && lo <= key.min <= key.max
    ensures Overlaps(Entries(t), key) <==> Overlaps(Entries(t.left), key)
    ensures key.max <= t.key.min - 1
    ensures Ordered(u, lo, t.key.min - 1) && Entries(u) == Entries(t.left)[key := data] ==>
              Ordered(t.(left := u), lo, hi) && Entries(t.(left := u)) == Entries(t)[key := data]
  {
    KeysInBounds(t.right, t.key.max + 1, hi);
    GlueOverlaps(Entries(t.left), t.key, t.data, Entries(t.right), key);
    GlueInserts(Entries(t.left), t.key, t.data, Entries(t.right), key, data);
  }

  /** `insert`; `None` is the panic, which happens exactly when the key meets a stored range. */
  method Insert<T>(t: Tree<T>, key: Range, data: NodeState<T>, ghost lo: int, ghost hi: int)
    returns (r: Option<Tree<T>>)
    requires Valid(t, lo, hi) && lo <= key.min <= key.max <= hi
    ensures r.None? <==> Overlaps(Entries(t), key)
    ensures r.Some? ==>
              && r.value.Node? && Valid(r.value, lo, hi) && Entries(r.value) == Entries(t)[key := data]
              && Height(t) <= Height(r.value) <= Height(t) + 1
    decreases t
  {
    if t.Leaf? {
      return Some(Singleton(key, data));
    } else if t.key.Intersects(key) {
      GlueOverlaps(Entries(t.left), t.key, t.data, Entries(t.right), key);
      return None;
    } else if t.key.Less(key) {
      InsertRight(t, key, data, Leaf, lo, hi);
      var right := Insert(t.right, key, data, t.key.max + 1, hi);
      if right.None? {
        return None;
      }
      InsertRight(t, key, data, right.value, lo, hi);
      var self := UpdatedNode(t.(right := right.value));
      return Some(self);
    } else {
      InsertLeft(t, key, data, Leaf, lo, hi);
      var left := Insert(t.left, key, data, lo, t.key.min - 1);
      if left.None? {
        return None;
      }
      InsertLeft(t, key, data, left.value, lo, hi);
      var self := UpdatedNode(t.(left := left.value));
      return Some(self);
    }
  }

  /** `get_new_root`: takes the lowest node out of a subtree. */
  method GetNewRoot<T>(t: Tree<T>, ghost lo: int, ghost hi: int) returns (minNode: Tree<T>, rest: Tree<T>)
    requires t.Node? && Valid(t, lo, hi)
    ensures minNode.Node? && lo <= minNode.key.min <= minNode.key.max <= hi
    ensures Valid(rest, minNode.key.max + 1, hi)
    ensures Entries(t) == Glue(map[], minNode.key, minNode.data, Entries(rest))
    ensures Height(t) - 1 <= Height(rest) <= Height(t)
    decreases t
  {
    if t.left.Leaf? {
      return t.(right := Leaf), t.right;
    }
    var left;
    minNode, left := GetNewRoot(t.left, lo, t.key.min - 1);
    GlueRotates(map[], minNode.key, minNode.data, Entries(left), t.key, t.data, Entries(t.right));
    var self := t.(left := left);
    assert Ordered(self, minNode.key.max + 1, hi);
    rest := UpdatedNode(self);
  }

  lemma GlueCombines<T>(a: Contents<T>, k: Range, d: NodeState<T>, b: Contents<T>,
                        l: Range, e: NodeState<T>, c: Contents<T>)
    requires b == Glue(map[], l, e, c) && k !in a && k !in b
    ensures Glue(a, l, e, c) == Glue(a, k, d, b) - {k}
  {
  }

  /** `combine_subtrees` on the two children of `t`. */
  method CombineSubtrees<T>(t: Tree<T>, ghost lo: int, ghost hi: int) returns (r: Tree<T>)
    requires t.Node? && t.left.Node? && t.right.Node? && Valid(t, lo, hi)
    requires t.key !in Entries(t.left) && t.key !in Entries(t.right)
    ensures Valid(r, lo, hi) && Entries(r) == Entries(t) - {t.key}
    ensures Height(t) - 1 <= Height(r) <= Height(t)
  {
    var newRoot, remaining := GetNewRoot(t.right, t.key.max + 1, hi);
    GlueCombines(Entries(t.left), t.key, t.data, Entries(t.right), newRoot.key, newRoot.data, Entries(remaining));
    WidenBounds(t.left, lo, t.key.min - 1, lo, newRoot.key.min - 1);
    var self := newRoot.(left := t.left, right := remaining);
    assert Ordered(self, lo, hi);
    r := UpdatedNode(self);
  }

  /** `delete_root`: what remains of a node once its own key is gone. */
  method DeleteRoot<T>(t: Tree<T>, ghost lo: int, ghost hi: int) returns (r: Tree<T>)
    requires t.Node? && Valid(t, lo, hi)
    ensures Valid(r, lo, hi) && Entries(r) == Entries(t) - {t.key}
    ensures Height(t) - 1 <= Height(r) <= Height(t)
  {
    KeysInBounds(t.left, lo, t.key.min - 1);
    KeysInBounds(t.right, t.key.max + 1, hi);
    if t.left.Leaf? {
      WidenBounds(t.right, t.key.max + 1, hi, lo, hi);
      return t.right;
    } else if t.right.Leaf? {
      WidenBounds(t.left, lo, t.key.min - 1, lo, hi);
      return t.left;
    }
    r := CombineSubtrees(t, lo, hi);
  }

  lemma DeleteRight<T>(t: Tree<T>, key: Range, u: Tree<T>, lo: int, hi: int)
    requires t.Node? && Ordered(t, lo, hi) && t.key != key && t.key.Less(key)
    ensures key in Entries(t) <==> key in Entries(t.right)
    ensures key in Entries(t) ==> Entries(t)[key] == Entries(t.right)[key]
    ensures Ordered(u, t.key.max + 1, hi) && Entries(u) == Entries(t.right) - {key} ==>
              Ordered(t.(right := u), lo, hi) && Entries(t.(right := u)) == Entries(t) - {key}
  {
    KeysInBounds(t.left, lo, t.key.min - 1);
    GlueDeletes(Entries(t.left), t.key, t.data, Entries(t.right), key);
  }

  lemma DeleteLeft<T>(t: Tree<T>, key: Range, u: Tree<T>, lo: int, hi: int)
    requires t.Node? && Ordered(t, lo, hi) && t.key != key && !t.key.Less(key)
    ensures key in Entries(t) <==> key in Entries(t.left)
    ensures key in Entries(t) ==> Entries(t)[key] == Entries(t.left)[key]
    ensures Ordered(u, lo, t.key.min - 1) && Entries(u) == Entries(t.left) - {key} ==>
              Ordered(t.(left := u), lo, hi) && Entries(t.(left := u)) == Entries(t) - {key}
  {
    KeysInBounds(t.right, t.key.max + 1, hi);
    GlueDeletes(Entries(t.left), t.key, t.data, Entries(t.right), key);
  }

  ghost function DataAt<T>(m: Contents<T>, key: Range): Option<T> {
    if key in m then m[key].Data() else None
  }

  /** `delete`: drops exactly `key`, whether or not it is stored. */
  method Delete<T>(t: Tree<T>, key: Range, ghost lo: int, ghost hi: int) returns (data: Option<T>, r: Tree<T>)
    requires Valid(t, lo, hi)
    ensures Valid(r, lo, hi) && Entries(r) == Entries(t) - {key}
    ensures data == DataAt(Entries(t), key)
    ensures Height(t) - 1 <= Height(r) <= Height(t)
    decreases t
  {
    if t.Leaf? {
      return None, Leaf;
    } else if t.key == key {
      KeysInBounds(t.right, t.key.max + 1, hi);
      data := t.data.Data();
      r := DeleteRoot(t, lo, hi);
    } else if t.key.Less(key) {
      DeleteRight(t, key, t.right, lo, hi);
      if t.right.Leaf? {
        return None, t;
      }
      var right;
      data, right := Delete(t.right, key, t.key.max + 1, hi);
      DeleteRight(t, key, right, lo, hi);
      r := UpdatedNode(t.(right := right));
    } else {
      DeleteLeft(t, key, t.left, lo, hi);
      if t.left.Leaf? {
        return None, t;
      }
      var left;
      data, left := Delete(t.left, key, lo, t.key.min - 1);
      DeleteLeft(t, key, left, lo, hi);
      r := UpdatedNode(t.(left := left));
    }
  }

  ghost function Replace<T>(m: Contents<T>, key: Range, data: NodeState<T>): Contents<T> {
    if key in m then m[key := data] else m
  }

  lemma UpdateRight<T>(t: Tree<T>, key: Range, data: NodeState<T>, u: Tree<T>, lo: int, hi: int)
    requires t.Node? && Ordered(t, lo, hi) && t.key != key && t.key.Less(key)
    requires Ordered(u, t.key.max + 1, hi) && Entries(u) == Replace(Entries(t.right), key, data)
    ensures Ordered(t.(right := u), lo, hi) && Entries(t.(right := u)) == Replace(Entries(t), key, data)
  {
    DeleteRight(t, key, u, lo, hi);
    GlueInserts(Entries(t.left), t.key, t.data, Entries(t.right), key, data);
  }

  lemma UpdateLeft<T>(t: Tree<T>, key: Range, data: NodeState<T>, u: Tree<T>, lo: int, hi: int)
    requires t.Node? && Ordered(t, lo, hi) && t.key != key && !t.key.Less(key)
    requires Ordered(u, lo, t.key.min - 1) && Entries(u) == Replace(Entries(t.left), key, data)
    ensures Ordered(t.(left := u), lo, hi) && Entries(t.(left := u)) == Replace(Entries(t), key, data)
  {
    hide Glue;
    KeysInBounds(t.right, t.key.max + 1, hi);
    DeleteLeft(t, key, u, lo, hi);
    GlueInserts(Entries(t.left), t.key, t.data, Entries(t.right), key, data);
  }

  lemma UpdateHere<T>(t: Tree<T>, data: NodeState<T>, lo: int, hi: int)
    requires t.Node? && Ordered(t, lo, hi)
    ensures t.key in Entries(t) && Entries(t)[t.key] == t.data
    ensures Ordered(t.(data := data), lo, hi) && Entries(t.(data := data)) == Replace(Entries(t), t.key, data)
  {
    KeysInBounds(t.right, t.key.max + 1, hi);
  }

  /** The state changes that `update` accepts without panicking. */
  predicate Updatable<T>(from: NodeState<T>, to: NodeState<T>) {
    if from.Free? then to.Allocated? else to.Valued?
  }

  /** `update`: replaces the state of a stored key, leaves the shape alone and returns the old data; `None` is the
      panic on a state change it does not accept. */
  method Update<T>(t: Tree<T>, key: Range, data: NodeState<T>, ghost lo: int, ghost hi: int)
    returns (was: Option<T>, r: Option<Tree<T>>)
    requires Valid(t, lo, hi)
    ensures r.None? <==> key in Entries(t) && !Updatable(Entries(t)[key], data)
    ensures r.Some? ==> Valid(r.value, lo, hi) && Height(r.value) == Height(t) && MaxKey(r.value) == MaxKey(t)
    ensures r.Some? ==> Entries(r.value) == Replace(Entries(t), key, data) && was == DataAt(Entries(t), key)
    decreases t
  {
    if t.Leaf? {
      return None, Some(t);
    } else if t.key == key {
      UpdateHere(t, data, lo, hi);
      if !Updatable(t.data, data) {
        return None, None;
      }
      return t.data.Data(), Some(t.(data := data));
    } else if t.key.Less(key) {
      DeleteRight(t, key, t.right, lo, hi);
      var right;
      was, right := Update(t.right, key, data, t.key.max + 1, hi);
      if right.None? {
        return None, None;
      }
      UpdateRight(t, key, data, right.value, lo, hi);
      r := Some(t.(right := right.value));
    } else {
      DeleteLeft(t, key, t.left, lo, hi);
      var left;
      was, left := Update(t.left, key, data, lo, t.key.min - 1);
      if left.None? {
        return None, None;
      }
      UpdateLeft(t, key, data, left.value, lo, hi);
      r := Some(t.(left := left.value));
    }
  }

  /** `search_superset`: the stored range that covers all of `key`. */
  function SearchSuperset<T>(t: Tree<T>, key: Range): Option<(Range, NodeState<T>)> {
    if t.Leaf? then None
    else if t.key.Contains(key) then Some((t.key, t.data))
    else if key.max < t.key.min then SearchSuperset(t.left, key)
    else if key.min > t.key.max then SearchSuperset(t.right, key)
    else None
  }

  lemma {:induction false} SearchSupersetFinds<T>(t: Tree<T>, key: Range, lo: int, hi: int)
    requires Ordered(t, lo, hi) && key.min <= key.max
    ensures var f := SearchSuperset(t, key);
            && (f.Some? ==> f.value.0 in Entries(t) && Entries(t)[f.value.0] == f.value.1 && f.value.0.Contains(key))
            && (f.None? ==> forall k :: k in Entries(t) ==> !k.Contains(key))
  {
    if t.Node? {
      KeysInBounds(t.left, lo, t.key.min - 1);
      KeysInBounds(t.right, t.key.max + 1, hi);
      SearchSupersetFinds(t.left, key, lo, t.key.min - 1);
      SearchSupersetFinds(t.right, key, t.key.max + 1, hi);
    }
  }

  /** `check_constraint` on a free node with key `key`. */
  predicate HasRoom(key: Range, c: Constraint) {
    var r := c.Clip(key);
    && r.min <= r.max
    && (if c.align <= 1 then r.Len() >= c.size
        else match r.AlignTo(c.align)
          case None => false
          case Some(aligned) => aligned.Len() >= c.size)
  }

  /** `first_match`: left subtree, then the node itself, then the right subtree. */
  function FirstMatch<T>(t: Tree<T>, c: Constraint): Option<Range> {
    if t.Leaf? then None
    else
      match FirstMatch(t.left, c)
      case Some(k) => Some(k)
      case None => if t.data.Free? && HasRoom(t.key, c) then Some(t.key) else FirstMatch(t.right, c)
  }

  ghost predicate Candidate<T>(m: Contents<T>, k: Range, c: Constraint) {
    k in m && m[k].Free? && HasRoom(k, c)
  }

  lemma GlueCandidates<T>(a: Contents<T>, k: Range, d: NodeState<T>, b: Contents<T>, c: Constraint)
    requires k !in a && k !in b && a.Keys !! b.Keys
    ensures forall x :: Candidate(Glue(a, k, d, b), x, c) <==>
              Candidate(a, x, c) || Candidate(b, x, c) || (x == k && d.Free? && HasRoom(k, c))
  {
  }

  lemma {:induction false} FirstMatchIsLowest<T>(t: Tree<T>, c: Constraint, lo: int, hi: int)
    requires Ordered(t, lo, hi)
    ensures var f := FirstMatch(t, c);
            && (f.Some? ==> Candidate(Entries(t), f.value, c))
            && (forall k :: Candidate(Entries(t), k, c) ==> f.Some? && (k == f.value || f.value.max < k.min))
  {
    if t.Node? {
      KeysInBounds(t.left, lo, t.key.min - 1);
      KeysInBounds(t.right, t.key.max + 1, hi);
      FirstMatchIsLowest(t.left, c, lo, t.key.min - 1);
      FirstMatchIsLowest(t.right, c, t.key.max + 1, hi);
      GlueCandidates(Entries(t.left), t.key, t.data, Entries(t.right), c);
    }
  }

  lemma {:induction false} KeysDisjoint<T>(t: Tree<T>, lo: int, hi: int)
    requires Ordered(t, lo, hi)
    ensures forall j, k :: j in Entries(t) && k in Entries(t) && j != k ==> j.max < k.min || k.max < j.min
  {
    if t.Node? {
      KeysInBounds(t.left, lo, t.key.min - 1);
      KeysInBounds(t.right, t.key.max + 1, hi);
      KeysDisjoint(t.left, lo, t.key.min - 1);
      KeysDisjoint(t.right, t.key.max + 1, hi);
    }
  }
}

/** Pools of resources: the interval tree as its callers see it. */
module IntervalTrees {
  import opened Wrappers
  import opened Ranges
  import opened IntervalNodes

  /** `x` can still be handed out. */
  ghost predicate FreeAt<T>(m: Contents<T>, x: int) {
    exists k :: k in m && m[k].Free? && k.Has(x)
  }

  /** The ranges that were handed out and not given back. */
  ghost function Held<T>(m: Contents<T>): Contents<T> {
    map k | k in m && !m[k].Free? :: m[k]
  }

  ghost function HeldExcept<T>(m: Contents<T>, g: Range): Contents<T> {
    map k | k in m && !m[k].Free? && k != g :: m[k]
  }

  ghost predicate Disjoint<T>(m: Contents<T>) {
    && (forall k :: k in m ==> k.WellFormed())
    && (forall j, k :: j in m && k in m && j != k ==> j.max < k.min || k.max < j.min)
  }

  /** No two free ranges touch. */
  ghost predicate Coalesced<T>(m: Contents<T>) {
    forall j, k :: j in m && k in m && m[j].Free? && m[k].Free? ==> j.max + 1 != k.min
  }

  ghost predicate Pool<T>(m: Contents<T>) {
    Disjoint(m) && Coalesced(m)
  }

  /** A range the constraint allows and some free range still covers. */
  ghost predicate Admissible<T>(m: Contents<T>, c: Constraint, g: Range) {
    c.Allows(g) && exists k :: k in m && m[k].Free? && k.Contains(g)
  }

  /** The first fit: admissible, and no admissible range starts lower. */
  ghost predicate FirstFit<T>(m: Contents<T>, c: Constraint, g: Range) {
    Admissible(m, c, g) && forall h :: Admissible(m, c, h) ==> g.min <= h.min
  }

  /** `m'` is `m` after the free range `g` has been handed out. */
  ghost predicate Granted<T>(m: Contents<T>, g: Range, state: NodeState<T>, m': Contents<T>) {
    && (forall x :: FreeAt(m', x) <==> FreeAt(m, x) && !g.Has(x))
    && g !in Held(m) && Held(m') == Held(m)[g := state]
    && Disjoint(m') && (Coalesced(m) ==> Coalesced(m'))
  }

  /** `m'` is `m` after `g` has been given back. */
  ghost predicate Released<T>(m: Contents<T>, g: Range, m': Contents<T>) {
    && (forall x :: FreeAt(m', x) <==> FreeAt(m, x) || g.Has(x))
    && Held(m') == HeldExcept(m, g)
    && Disjoint(m') && (Coalesced(m) ==> Coalesced(m'))
  }

  /** A pool is determined by what is held and what is free: its stored ranges have one normal form. */
  lemma NormalForm<T>(m: Contents<T>, n: Contents<T>)
    requires Pool(m) && Pool(n) && Held(m) == Held(n)
    requires forall x :: FreeAt(m, x) <==> FreeAt(n, x)
    ensures m == n
  {
    FreeRangesAgree(m, n);
    FreeRangesAgree(n, m);
    HeldRangesAgree(m, n);
    HeldRangesAgree(n, m);
  }

  /** Consecutive free values of a pool lie in one stored range. */
  lemma ContiguousFree<T>(m: Contents<T>, r: Range)
    requires Pool(m) && r.WellFormed() && forall x :: r.Has(x) ==> FreeAt(m, x)
    ensures exists k :: k in m && m[k].Free? && k.Contains(r)
  {
    assert r.Has(r.min) && FreeAt(m, r.min);
    var k :| k in m && m[k].Free? && k.Has(r.min);
    Flush(m, k);
    assert k.max < r.max ==> r.Has(k.max + 1);
  }

  lemma HeldRangesAgree<T>(m: Contents<T>, n: Contents<T>)
    requires Held(m) == Held(n)
    ensures forall k :: k in m && !m[k].Free? ==> k in n && n[k] == m[k]
  {
    forall k | k in m && !m[k].Free?
      ensures k in n && n[k] == m[k]
    {
      assert k in Held(m);
      assert k in Held(n);
    }
  }

  lemma FreeRangesAgree<T>(m: Contents<T>, n: Contents<T>)
    requires Pool(m) && Pool(n)
    requires forall x :: FreeAt(m, x) <==> FreeAt(n, x)
    ensures forall k :: k in m && m[k].Free? ==> k in n && n[k].Free?
  {
    forall k | k in m && m[k].Free?
      ensures k in n && n[k].Free?
    {
      FreeRangeStays(m, n, k);
    }
  }

  lemma FreeRangeStays<T>(m: Contents<T>, n: Contents<T>, k: Range)
    requires Pool(m) && Pool(n)
    requires forall x :: FreeAt(m, x) <==> FreeAt(n, x)
    requires k in m && m[k].Free?
    ensures k in n && n[k].Free?
  {
    assert k.Has(k.min);
    assert FreeAt(m, k.min);
    var l :| l in n && n[l].Free? && l.Has(k.min);
    Flush(m, k);
    Flush(n, l);
    assert l.Has(l.min) && l.Has(l.max) && k.Has(k.max);
    assert l.min < k.min ==> l.Has(k.min - 1);
    assert l.max < k.max ==> k.Has(l.max + 1);
    assert k.max < l.max ==> l.Has(k.max + 1);
  }

  /** The values just outside a free range of a pool are not free. */
  lemma Flush<T>(m: Contents<T>, k: Range)
    requires Pool(m) && k in m && m[k].Free?
    ensures !FreeAt(m, k.min - 1) && !FreeAt(m, k.max + 1)
  {
  }

  /** Handing out and giving back restores the pool exactly. */
  lemma GrantThenRelease<T>(m: Contents<T>, g: Range, state: NodeState<T>, m': Contents<T>, m'': Contents<T>)
    requires Pool(m) && Granted(m, g, state, m') && Released(m', g, m'')
    requires forall x :: g.Has(x) ==> FreeAt(m, x)
    ensures m'' == m
  {
    HeldRoundTrip(m, g, state, m');
    NormalForm(m'', m);
  }

  lemma HeldRoundTrip<T>(m: Contents<T>, g: Range, state: NodeState<T>, m': Contents<T>)
    requires g !in Held(m) && Held(m') == Held(m)[g := state]
    ensures HeldExcept(m', g) == Held(m)
  {
    assert forall k :: k in HeldExcept(m', g) <==> k in Held(m') && k != g;
    assert forall k :: k in HeldExcept(m', g) ==> HeldExcept(m', g)[k] == Held(m')[k];
  }

  /** The range that `allocate` cuts out of a candidate node. */
  function GrantIn(k: Range, c: Constraint): Range
    requires HasRoom(k, c) && k.WellFormed() && c.size > 0
  {
    var aligned := c.Clip(k).AlignTo(c.align).value;
    Range(aligned.min, aligned.min + c.size - 1)
  }

  predicate WordSized(c: Constraint) {
    c.size <= U64_MAX && c.min <= U64_MAX && c.max <= U64_MAX && c.align <= U64_MAX
  }

  /** A node has room exactly when it covers an allowed range, and the grant is the lowest of those. */
  lemma GrantIsLowest(k: Range, c: Constraint)
    requires k.WellFormed() && WordSized(c) && c.size > 0
    ensures HasRoom(k, c) ==> c.Allows(GrantIn(k, c)) && k.Contains(GrantIn(k, c))
    ensures forall g :: c.Allows(g) && k.Contains(g) ==> HasRoom(k, c) && GrantIn(k, c).min <= g.min
  {
    var clip := c.Clip(k);
    if clip.min <= clip.max {
      AlignToIsLowest(clip, c.align);
    }
    forall g | c.Allows(g) && k.Contains(g)
      ensures HasRoom(k, c) && GrantIn(k, c).min <= g.min
    {
      assert clip.Has(g.min);
    }
  }

  ghost predicate NoFullRange<T>(m: Contents<T>) {
    forall k :: k in m ==> !k.Full()
  }

  /** `m` with the free node `k` split into what lies below `g`, `g` itself and what lies above. */
  ghost function Split<T>(m: Contents<T>, k: Range, g: Range): Contents<T> {
    var rest := m - {k};
    var below := if k.min < g.min then rest[Range(k.min, g.min - 1) := Free] else rest;
    var granted := below[g := Allocated];
    if g.max < k.max then granted[Range(g.max + 1, k.max) := Free] else granted
  }

  lemma SplitStored<T>(m: Contents<T>, k: Range, g: Range)
    requires Disjoint(m) && k in m && m[k].Free? && g.WellFormed() && k.Contains(g)
    ensures var n := Split(m, k, g);
            && (forall j :: j in n <==> || (j in m && j != k) || j == g
                                        || (k.min < g.min && j == Range(k.min, g.min - 1))
                                        || (g.max < k.max && j == Range(g.max + 1, k.max)))
            && (forall j :: j in n ==> n[j] == if j == g then Allocated else if j in m && j != k then m[j] else Free)
  {
    assert g != k ==> g !in m;
    assert k.min < g.min ==> Range(k.min, g.min - 1) !in m;
    assert g.max < k.max ==> Range(g.max + 1, k.max) !in m;
  }

  lemma SplitFree<T>(m: Contents<T>, k: Range, g: Range)
    requires Disjoint(m) && k in m && m[k].Free? && g.WellFormed() && k.Contains(g)
    ensures forall x :: FreeAt(Split(m, k, g), x) <==> FreeAt(m, x) && !g.Has(x)
  {
    hide Split;
    var n := Split(m, k, g);
    SplitStored(m, k, g);
    forall x
      ensures FreeAt(n, x) <==> FreeAt(m, x) && !g.Has(x)
    {
      var below, above := Range(k.min, Max(0, g.min - 1)), Range(g.max + 1, k.max);
      assert below in n || g.min == k.min;
      if FreeAt(m, x) && !g.Has(x) {
        var j :| j in m && m[j].Free? && j.Has(x);
        assert j != k ==> j in n && n[j].Free?;
        assert j == k ==>
          || (below in n && n[below].Free? && below.Has(x))
          || (above in n && n[above].Free? && above.Has(x));
      }
      if FreeAt(n, x) {
        var j :| j in n && n[j].Free? && j.Has(x);
        assert (j in m && j != k) || k.Has(x);
      }
    }
  }

  lemma SplitHeld<T>(m: Contents<T>, k: Range, g: Range)
    requires Disjoint(m) && k in m && m[k].Free? && g.WellFormed() && k.Contains(g)
    ensures g !in Held(m) && Held(Split(m, k, g)) == Held(m)[g := Allocated]
  {
    hide Split;
    SplitStored(m, k, g);
  }

  /** A range of the split pool is one of the others, or a piece of `k`: below `g`, `g` itself, or above. */
  ghost predicate Piece<T>(m: Contents<T>, k: Range, g: Range, j: Range) {
    || (j in m && j != k) || j == g
    || (k.min < g.min && j == Range(k.min, g.min - 1)) || (g.max < k.max && j == Range(g.max + 1, k.max))
  }

  lemma PiecesApart<T>(m: Contents<T>, k: Range, g: Range, i: Range, j: Range)
    requires Disjoint(m) && k in m && g.WellFormed() && k.Contains(g) && Piece(m, k, g, i) && Piece(m, k, g, j)
    ensures i.WellFormed() && (i != j ==> i.max < j.min || j.max < i.min)
  {
  }

  lemma SplitDisjoint<T>(m: Contents<T>, k: Range, g: Range)
    requires Disjoint(m) && k in m && m[k].Free? && g.WellFormed() && k.Contains(g)
    ensures Disjoint(Split(m, k, g))
  {
    hide Split;
    SplitStored(m, k, g);
    var n := Split(m, k, g);
    forall i, j | i in n && j in n
      ensures i.WellFormed() && (i != j ==> i.max < j.min || j.max < i.min)
    {
      PiecesApart(m, k, g, i, j);
    }
  }

  lemma SplitCoalesced<T>(m: Contents<T>, k: Range, g: Range)
    requires Disjoint(m) && k in m && m[k].Free? && g.WellFormed() && k.Contains(g) && Coalesced(m)
    ensures Coalesced(Split(m, k, g))
  {
    hide Split;
    SplitStored(m, k, g);
    var n := Split(m, k, g);
    forall i, j | i in n && j in n && n[i].Free? && n[j].Free?
      ensures i.max + 1 != j.min
    {
      assert (i in m && i != k && m[i].Free?) || i.max + 1 == g.min || i == Range(g.max + 1, k.max);
      assert (j in m && j != k && m[j].Free?) || j.min == k.min || j.min == g.max + 1;
    }
  }

  lemma SplitGrants<T>(m: Contents<T>, k: Range, g: Range)
    requires Disjoint(m) && k in m && m[k].Free? && g.WellFormed() && k.Contains(g)
    ensures Granted(m, g, Allocated, Split(m, k, g))
  {
    SplitFree(m, k, g);
    SplitHeld(m, k, g);
    SplitDisjoint(m, k, g);
    if Coalesced(m) {
      SplitCoalesced(m, k, g);
    }
  }

  lemma FirstMatchFits<T>(m: Contents<T>, c: Constraint, f: Option<Range>)
    requires Disjoint(m) && WordSized(c) && c.size > 0
    requires f.Some? ==> Candidate(m, f.value, c)
    requires forall k :: Candidate(m, k, c) ==> f.Some? && (k == f.value || f.value.max < k.min)
    ensures f.None? ==> forall g :: !Admissible(m, c, g)
    ensures f.Some? ==> FirstFit(m, c, GrantIn(f.value, c)) && f.value.Contains(GrantIn(f.value, c))
  {
    forall g | Admissible(m, c, g)
      ensures f.Some? && GrantIn(f.value, c).min <= g.min
    {
      var k :| k in m && m[k].Free? && k.Contains(g);
      GrantIsLowest(k, c);
      assert Candidate(m, k, c);
      GrantIsLowest(f.value, c);
    }
    if f.Some? {
      GrantIsLowest(f.value, c);
    }
  }

  /** The insertions that `allocate` makes after deleting the candidate never collide. */
  ghost function WithBelow<T>(m: Contents<T>, k: Range, g: Range): Contents<T> {
    if k.min < g.min then (m - {k})[Range(k.min, g.min - 1) := Free] else m - {k}
  }

  lemma SplitSteps<T>(m: Contents<T>, k: Range, g: Range)
    requires Disjoint(m) && k in m && m[k].Free? && g.WellFormed() && k.Contains(g)
    ensures k.min < g.min ==> !Overlaps(m - {k}, Range(k.min, g.min - 1))
    ensures !Overlaps(WithBelow(m, k, g), g)
    ensures g.max < k.max ==> !Overlaps(WithBelow(m, k, g)[g := Free], Range(g.max + 1, k.max))
    ensures Split(m, k, g) == (if g.max < k.max then WithBelow(m, k, g)[g := Free][Range(g.max + 1, k.max) := Free]
                               else WithBelow(m, k, g)[g := Free])[g := Allocated]
  {
    hide Split;
    SplitOrder(m, k, g);
    assert forall j :: j in m - {k} ==> j.max < k.min || k.max < j.min;
  }

  lemma SplitOrder<T>(m: Contents<T>, k: Range, g: Range)
    requires g.WellFormed() && k.Contains(g)
    ensures Split(m, k, g) == (if g.max < k.max then WithBelow(m, k, g)[g := Free][Range(g.max + 1, k.max) := Free]
                               else WithBelow(m, k, g)[g := Free])[g := Allocated]
  {
  }

  lemma SplitWhole<T>(m: Contents<T>, k: Range)
    requires k in m
    ensures Split(m, k, k) == m[k := Allocated]
  {
  }

  /** `key` is a stored range or meets none: the ranges `free` can take back. */
  ghost predicate Releasable<T>(m: Contents<T>, key: Range) {
    forall k :: k in m && k != key ==> !k.Intersects(key)
  }

  /** `n` is the free range of `m` that ends just below (or starts just above) `key`, if there is one. */
  ghost predicate Neighbours<T>(m: Contents<T>, key: Range, below: Option<Range>, above: Option<Range>) {
    && (below.Some? ==> below.value in m && below.value != key && m[below.value].Free?)
    && (below.Some? ==> below.value.max + 1 == key.min)
    && (below.None? ==> forall k :: k in m && m[k].Free? ==> k.max + 1 != key.min)
    && (above.Some? ==> above.value in m && above.value != key && m[above.value].Free?)
    && (above.Some? ==> above.value.min == key.max + 1)
    && (above.None? ==> forall k :: k in m && m[k].Free? ==> k.min != key.max + 1)
  }

  function Joined(key: Range, below: Option<Range>, above: Option<Range>): Range {
    Range(if below.Some? then below.value.min else key.min, if above.Some? then above.value.max else key.max)
  }

  ghost function Rest<T>(m: Contents<T>, key: Range, below: Option<Range>, above: Option<Range>): Contents<T> {
    map j | j in m && j != key && Some(j) != below && Some(j) != above :: m[j]
  }

  ghost function Merge<T>(m: Contents<T>, key: Range, below: Option<Range>, above: Option<Range>): Contents<T> {
    Rest(m, key, below, above)[Joined(key, below, above) := Free]
  }

  ghost predicate Mergeable<T>(m: Contents<T>, key: Range, below: Option<Range>, above: Option<Range>) {
    Disjoint(m) && key.WellFormed() && Releasable(m, key) && Neighbours(m, key, below, above)
  }

  lemma RestApart<T>(m: Contents<T>, key: Range, below: Option<Range>, above: Option<Range>, j: Range)
    requires Mergeable(m, key, below, above) && j in Rest(m, key, below, above)
    ensures j in m && j != key && Some(j) != below && Some(j) != above
    ensures j.max < Joined(key, below, above).min || Joined(key, below, above).max < j.min
  {
    assert !j.Intersects(key);
  }

  lemma MergeApart<T>(m: Contents<T>, key: Range, below: Option<Range>, above: Option<Range>)
    requires Mergeable(m, key, below, above)
    ensures Joined(key, below, above).WellFormed()
    ensures forall j :: j in Rest(m, key, below, above) ==>
              && j in m && j != key && Some(j) != below && Some(j) != above
              && (j.max < Joined(key, below, above).min || Joined(key, below, above).max < j.min)
    ensures !Overlaps(Rest(m, key, below, above), Joined(key, below, above))
    ensures Joined(key, below, above) !in Rest(m, key, below, above)
  {
    hide Rest;
    var joined := Joined(key, below, above);
    forall j | j in Rest(m, key, below, above)
      ensures j in m && j != key && Some(j) != below && Some(j) != above && (j.max < joined.min || joined.max < j.min)
    {
      RestApart(m, key, below, above, j);
    }
  }

  lemma FreeInMerge<T>(m: Contents<T>, key: Range, below: Option<Range>, above: Option<Range>, x: int)
    requires Mergeable(m, key, below, above) && (FreeAt(m, x) || key.Has(x))
    ensures FreeAt(Merge(m, key, below, above), x)
  {
    var n, joined := Merge(m, key, below, above), Joined(key, below, above);
    assert joined in n && n[joined].Free?;
    if !joined.Has(x) {
      var j :| j in m && m[j].Free? && j.Has(x);
      assert j in n && n[j].Free?;
    }
  }

  lemma FreeBeforeMerge<T>(m: Contents<T>, key: Range, below: Option<Range>, above: Option<Range>, x: int)
    requires Mergeable(m, key, below, above) && FreeAt(Merge(m, key, below, above), x)
    ensures FreeAt(m, x) || key.Has(x)
  {
    var n, joined := Merge(m, key, below, above), Joined(key, below, above);
    var j :| j in n && n[j].Free? && j.Has(x);
    assert j == joined || (j in m && m[j].Free?);
  }

  lemma MergeFree<T>(m: Contents<T>, key: Range, below: Option<Range>, above: Option<Range>)
    requires Mergeable(m, key, below, above)
    ensures forall x :: FreeAt(Merge(m, key, below, above), x) <==> FreeAt(m, x) || key.Has(x)
  {
    hide Merge, Mergeable;
    forall x
      ensures FreeAt(Merge(m, key, below, above), x) <==> FreeAt(m, x) || key.Has(x)
    {
      if FreeAt(m, x) || key.Has(x) {
        FreeInMerge(m, key, below, above, x);
      }
      if FreeAt(Merge(m, key, below, above), x) {
        FreeBeforeMerge(m, key, below, above, x);
      }
    }
  }

  lemma MergeHeld<T>(m: Contents<T>, key: Range, below: Option<Range>, above: Option<Range>)
    requires Mergeable(m, key, below, above)
    ensures Held(Merge(m, key, below, above)) == HeldExcept(m, key)
  {
    MergeApart(m, key, below, above);
    HeldAddFree(Rest(m, key, below, above), Joined(key, below, above));
    HeldRest(m, key, below, above);
  }

  lemma HeldAddFree<T>(n: Contents<T>, j: Range)
    requires j !in n
    ensures Held(n[j := Free]) == Held(n)
  {
  }

  lemma HeldRest<T>(m: Contents<T>, key: Range, below: Option<Range>, above: Option<Range>)
    requires below.Some? ==> below.value in m && m[below.value].Free?
    requires above.Some? ==> above.value in m && m[above.value].Free?
    ensures Held(Rest(m, key, below, above)) == HeldExcept(m, key)
  {
  }

  lemma MergeCoalesced<T>(m: Contents<T>, key: Range, below: Option<Range>, above: Option<Range>)
    requires Mergeable(m, key, below, above) && Coalesced(m)
    ensures Coalesced(Merge(m, key, below, above))
  {
    MergeApart(m, key, below, above);
    var n, joined := Merge(m, key, below, above), Joined(key, below, above);
    forall i, j | i in n && j in n && n[i].Free? && n[j].Free?
      ensures i.max + 1 != j.min
    {
      assert i == joined || (i in m && m[i].Free?);
      assert j == joined || (j in m && m[j].Free?);
    }
  }

  lemma MergeReleases<T>(m: Contents<T>, key: Range, below: Option<Range>, above: Option<Range>)
    requires Mergeable(m, key, below, above)
    ensures Released(m, key, Merge(m, key, below, above))
  {
    MergeApart(m, key, below, above);
    MergeFree(m, key, below, above);
    MergeHeld(m, key, below, above);
    if Coalesced(m) {
      MergeCoalesced(m, key, below, above);
    }
  }

  /** What looking up the two values next to `key` found. */
  ghost predicate FoundAround<T>(m: Contents<T>, key: Range, below: Option<Range>, above: Option<Range>) {
    && (below.Some? ==> below.value in m && below.value != key && m[below.value].Free? && below.value.Has(key.min - 1))
    && (below.None? ==> forall k :: k in m && k != key && m[k].Free? ==> !k.Has(key.min - 1))
    && (above.Some? ==> above.value in m && above.value != key && m[above.value].Free? && above.value.Has(key.max + 1))
    && (above.None? ==> forall k :: k in m && k != key && m[k].Free? ==> !k.Has(key.max + 1))
  }

  lemma FoundAroundKey<T>(m: Contents<T>, key: Range, below: Option<Range>, above: Option<Range>)
    ensures FoundAround(m - {key}, key, below, above) ==> FoundAround(m, key, below, above)
  {
    assert forall k :: k in m && k != key ==> k in m - {key} && (m - {key})[k] == m[k];
  }

  /** The free ranges found around a releasable key touch it, so deleting the gap deletes them. */
  lemma TouchingRanges<T>(m: Contents<T>, key: Range, below: Option<Range>, above: Option<Range>)
    requires Disjoint(m) && key.WellFormed() && Releasable(m, key) && FoundAround(m, key, below, above)
    ensures Neighbours(m, key, below, above)
    ensures below.Some? ==> below.value == Range(below.value.min, key.min - 1)
    ensures above.Some? ==> above.value == Range(key.max + 1, above.value.max)
  {
    assert forall k :: k in m && k.max + 1 == key.min ==> k.Has(key.min - 1);
    assert forall k :: k in m && k.min == key.max + 1 ==> k.Has(key.max + 1);
  }

  /** `m` without the two ranges that fill `range` around `key`. */
  ghost function WithoutGaps<T>(m: Contents<T>, key: Range, range: Range): Contents<T>
    requires key.min <= key.max && range.Contains(key)
  {
    var lower := if range.min < key.min then m - {Range(range.min, key.min - 1)} else m;
    if range.max > key.max then lower - {Range(key.max + 1, range.max)} else lower
  }

  lemma RestByDeleting<T>(m: Contents<T>, key: Range, below: Option<Range>, above: Option<Range>)
    ensures var a := m - {key};
            var b := if below.Some? then a - {below.value} else a;
            (if above.Some? then b - {above.value} else b) == Rest(m, key, below, above)
  {
  }

  lemma GapsAreNeighbours<T>(m: Contents<T>, key: Range, below: Option<Range>, above: Option<Range>)
    requires key.min <= key.max
    requires below.Some? ==> below.value.min <= below.value.max && below.value.max + 1 == key.min
    requires above.Some? ==> above.value.min <= above.value.max && above.value.min == key.max + 1
    ensures Joined(key, below, above).Contains(key)
    ensures var b := if below.Some? then m - {below.value} else m;
            WithoutGaps(m, key, Joined(key, below, above)) == if above.Some? then b - {above.value} else b
  {
    assert below.Some? ==> below.value == Range(below.value.min, key.min - 1);
    assert above.Some? ==> above.value == Range(key.max + 1, above.value.max);
  }

  lemma RejoinFits<T>(m: Contents<T>, key: Range, below: Option<Range>, above: Option<Range>)
    requires Disjoint(m) && key.WellFormed() && FoundAround(m, key, below, above) && Releasable(m, key)
    ensures Joined(key, below, above).Contains(key)
    ensures WithoutGaps(m - {key}, key, Joined(key, below, above)) == Rest(m, key, below, above)
  {
    TouchingRanges(m, key, below, above);
    GapsAreNeighbours(m - {key}, key, below, above);
    RestByDeleting(m, key, below, above);
  }

  lemma FreeMerges<T>(m: Contents<T>, key: Range, below: Option<Range>, above: Option<Range>)
    requires Disjoint(m) && key.WellFormed() && FoundAround(m, key, below, above) && Releasable(m, key)
    ensures Joined(key, below, above).Contains(key)
    ensures var range := Joined(key, below, above);
            var n := WithoutGaps(m - {key}, key, range);
            !Overlaps(n, range) && Released(m, key, n[range := Free])
  {
    RejoinFits(m, key, below, above);
    TouchingRanges(m, key, below, above);
    MergeApart(m, key, below, above);
    MergeReleases(m, key, below, above);
  }

  /** A key that meets a stored range still meets it after the gaps are gone. */
  lemma RejoinCollides<T>(m: Contents<T>, key: Range, range: Range)
    requires key.min <= key.max && range.Contains(key) && !Releasable(m, key)
    ensures Overlaps(WithoutGaps(m - {key}, key, range), range)
  {
    var k :| k in m && k != key && k.Intersects(key);
    assert k in WithoutGaps(m - {key}, key, range) && k.Intersects(range);
  }

  class IntervalTree<T> {
    var root: Tree<T>

    ghost predicate Valid()
      reads this
    {
      IntervalNodes.Valid(root, 0, U64_MAX)
    }

    ghost function View(): Contents<T>
      reads this
    {
      Entries(root)
    }

    lemma Disjointness()
      requires Valid()
      ensures Disjoint(View())
    {
      KeysInBounds(root, 0, U64_MAX);
      KeysDisjoint(root, 0, U64_MAX);
    }

    constructor ()
      ensures Valid() && View() == map[]
    {
      root := Leaf;
    }

    /** `insert`; the root is taken out before it is rewritten, so that a panic leaves the tree empty. */
    method Insert(key: Range, data: Option<T>) returns (panicked: bool)
      requires Valid() && key.WellFormed()
      modifies this
      ensures Valid() && (panicked <==> Overlaps(old(View()), key))
      ensures panicked ==> View() == map[]
      ensures !panicked ==> View() == old(View())[key := if data.Some? then Valued(data.value) else NodeState.Free]
    {
      var state := if data.Some? then Valued(data.value) else NodeState.Free;
      var r := IntervalNodes.Insert(root, key, state, 0, U64_MAX);
      panicked := r.None?;
      root := if r.Some? then r.value else Leaf;
    }

    method Update(key: Range, data: T) returns (panicked: bool, was: Option<T>)
      requires Valid()
      modifies this
      ensures Valid() && (panicked <==> key in old(View()) && old(View())[key].Free?)
      ensures !panicked ==> View() == Replace(old(View()), key, Valued(data)) && was == DataAt(old(View()), key)
    {
      var r;
      was, r := IntervalNodes.Update(root, key, Valued(data), 0, U64_MAX);
      panicked := r.None?;
      if r.Some? {
        root := r.value;
      }
    }

    method Delete(key: Range) returns (data: Option<T>)
      requires Valid()
      modifies this
      ensures Valid() && View() == old(View()) - {key} && data == DataAt(old(View()), key)
    {
      data, root := IntervalNodes.Delete(root, key, 0, U64_MAX);
    }

    /** `allocate`: the first fit, or proof that nothing fits. */
    method Allocate(c: Constraint) returns (g: Option<Range>)
      requires Valid() && NoFullRange(View()) && WordSized(c)
      modifies this
      ensures Valid()
      ensures g.None? ==> View() == old(View()) && forall h :: !Admissible(old(View()), c, h)
      ensures g.Some? ==> FirstFit(old(View()), c, g.value) && Granted(old(View()), g.value, Allocated, View())
    {
      ghost var m := View();
      Disjointness();
      if c.size == 0 {
        return None;
      }
      var candidate := FirstMatch(root, c);
      FirstMatchIsLowest(root, c, 0, U64_MAX);
      FirstMatchFits(m, c, candidate);
      if candidate.None? {
        return None;
      }
      var nodeKey := candidate.value;
      var result := GrantIn(nodeKey, c);
      Carve(nodeKey, result);
      SplitGrants(m, nodeKey, result);
      g := Some(result);
    }

    /** The part of `allocate` that rewrites the tree around the granted range. */
    method Carve(nodeKey: Range, result: Range)
      requires Valid() && nodeKey in View() && View()[nodeKey].Free? && result.WellFormed() && nodeKey.Contains(result)
      modifies this
      ensures Valid() && View() == Split(old(View()), nodeKey, result)
    {
      Disjointness();
      if nodeKey.min == result.min && nodeKey.Len() == result.Len() {
        SplitWhole(View(), nodeKey);
        var _, r := IntervalNodes.Update(root, nodeKey, Allocated, 0, U64_MAX);
        root := r.value;
      } else {
        CarvePart(nodeKey, result);
      }
    }

    /** The node goes, its pieces come in its place, and the granted one changes state. */
    method CarvePart(nodeKey: Range, result: Range)
      requires Valid() && Disjoint(View()) && nodeKey in View() && View()[nodeKey].Free?
      requires nodeKey.WellFormed() && result.WellFormed() && nodeKey.Contains(result)
      modifies this
      ensures Valid() && View() == Split(old(View()), nodeKey, result)
    {
      hide Split, Overlaps, Disjoint;
      SplitSteps(View(), nodeKey, result);
      var _ := Delete(nodeKey);
      if result.min > nodeKey.min {
        var panicked := Insert(Range(nodeKey.min, result.min - 1), None);
      }
      var panicked := Insert(result, None);
      if result.max < nodeKey.max {
        panicked := Insert(Range(result.max + 1, nodeKey.max), None);
      }
      var _, r := IntervalNodes.Update(root, result, Allocated, 0, U64_MAX);
      root := r.value;
    }

    method GetSuperset(key: Range) returns (f: Option<(Range, NodeState<T>)>)
      requires Valid() && key.min <= key.max
      ensures f.Some? ==> f.value.0 in View() && View()[f.value.0] == f.value.1 && f.value.0.Contains(key)
      ensures f.None? ==> forall k :: k in View() ==> !k.Contains(key)
    {
      f := SearchSuperset(root, key);
      SearchSupersetFinds(root, key, 0, U64_MAX);
    }

    /** `free`: takes a range back and joins it with the free ranges that touch it. */
    method Free(key: Range) returns (panicked: bool, data: Option<T>)
      requires Valid() && key.WellFormed()
      modifies this
      ensures Valid() && (panicked <==> !Releasable(old(View()), key))
      ensures !panicked ==> Released(old(View()), key, View()) && data == DataAt(old(View()), key)
    {
      ghost var m := View();
      Disjointness();
      data := Delete(key);
      var below, above := LookAround(key);
      FoundAroundKey(m, key, below, above);
      var range := Joined(key, below, above);
      panicked := Rejoin(key, range);
      if Releasable(m, key) {
        FreeMerges(m, key, below, above);
      } else {
        RejoinCollides(m, key, range);
      }
    }

    /** The two look-ups of `free`. */
    method LookAround(key: Range) returns (below: Option<Range>, above: Option<Range>)
      requires Valid() && key.WellFormed() && key !in View()
      ensures FoundAround(View(), key, below, above) && Joined(key, below, above).WellFormed()
    {
      Disjointness();
      below, above := None, None;
      if key.min > 0 {
        below := FreeRangeAt(key.min - 1);
      }
      if key.max < U64_MAX {
        above := FreeRangeAt(key.max + 1);
      }
    }

    method FreeRangeAt(x: nat) returns (f: Option<Range>)
      requires Valid()
      ensures f.Some? ==> f.value in View() && View()[f.value].Free? && f.value.Has(x)
      ensures f.None? ==> forall k :: k in View() && View()[k].Free? ==> !k.Has(x)
    {
      Disjointness();
      var s := GetSuperset(Range(x, x));
      if s.Some? && s.value.1.Free? {
        f := Some(s.value.0);
      } else {
        f := None;
        assert s.None? ==> forall k :: k in View() && k.Has(x) ==> k.Contains(Range(x, x));
      }
    }

    /** The part of `free` that replaces the ranges around `key` by the joined `range`. */
    method Rejoin(key: Range, range: Range) returns (panicked: bool)
      requires Valid() && range.WellFormed() && key.min <= key.max && range.Contains(key)
      modifies this
      ensures Valid() && (panicked <==> Overlaps(WithoutGaps(old(View()), key, range), range))
      ensures !panicked ==> View() == WithoutGaps(old(View()), key, range)[range := NodeState.Free]
    {
      if range.min < key.min {
        var _ := Delete(Range(range.min, key.min - 1));
      }
      if range.max > key.max {
        var _ := Delete(Range(key.max + 1, range.max));
      }
      panicked := Insert(range, None);
    }
  }
}
