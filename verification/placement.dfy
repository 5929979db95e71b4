/** Where the bump allocator puts things: pure arithmetic on offsets. */
module Placement {
  import opened Options

  /** Size and alignment of a Rust type. A Rust alignment is a power of two; the results below
      need no more than that it is positive and divides the size. */
  datatype Layout = Layout(size: nat, align: nat) {
    predicate Valid() {
      align > 0 && size % align == 0
    }
  }

  /** Distance from `addr` up to the next multiple of `align`. */
  function Pad(addr: nat, align: nat): (p: nat)
    requires align > 0
    ensures p < align
    ensures (addr + p) % align == 0
  {
    var r := addr % align;
    if r == 0 then 0 else
      PadReaches(addr, align);
      align - r
  }

  lemma PadReaches(addr: nat, align: nat)
    requires align > 0
    ensures (addr + (align - addr % align)) % align == 0
  {
    var q := addr / align;
    assert addr + (align - addr % align) == (q + 1) * align;
    QuotientUnique(addr + (align - addr % align), align, q + 1, 0);
  }

  /** Quotient and remainder are determined by the equation they satisfy. */
  lemma QuotientUnique(a: int, m: int, q: int, r: int)
    requires m > 0 && a == q * m + r && 0 <= r < m
    ensures a / m == q && a % m == r
  {
    var d := q - a / m;
    assert d * m == a % m - r;
    assert (-d) * m == -(d * m);
    if d > 0 {
      ProductAtLeast(d, m);
    } else if d < 0 {
      ProductAtLeast(-d, m);
    }
  }

  lemma ProductAtLeast(d: int, m: int)
    requires d >= 1 && m >= 0
    ensures d * m >= m
  {
  }

  /** No multiple of `align` lies between `addr` and `addr + Pad(addr, align)`. */
  lemma PadIsLeast(addr: nat, align: nat, target: nat)
    requires align > 0 && addr <= target && target % align == 0
    ensures addr + Pad(addr, align) <= target
  {
    var up := addr + Pad(addr, align);
    if target < up {
      var d := up / align - target / align;
      assert d * align == up - target;
      assert (1 - d) * align == align - d * align;
      if d >= 1 {
        ProductAtLeast(d, align);
      } else {
        ProductAtLeast(1 - d, align);
      }
    }
  }

  /** The arena offset after one allocation, or `None` where the allocator panics with
      "Out of bump memory". `base` is the address of the arena, `cap` its length. */
  function Bump1(base: nat, cap: nat, offset: nat, l: Layout): (r: Option<nat>)
    requires l.Valid() && offset <= cap
    ensures r.Some? ==> offset + l.size <= r.value <= cap
    ensures r.Some? ==> r.value < offset + l.size + l.align
  {
    if l.size == 0 then Some(offset) else
      var end := offset + Pad(base + offset, l.align) + l.size;
      if end <= cap then Some(end) else None
  }

  predicate AllValid(ls: seq<Layout>) {
    forall i :: 0 <= i < |ls| ==> ls[i].Valid()
  }

  /** The offset after allocating `ls` in order, or `None` if one of the allocations panics. */
  function BumpAll(base: nat, cap: nat, offset: nat, ls: seq<Layout>): (r: Option<nat>)
    requires AllValid(ls) && offset <= cap
    ensures r.Some? ==> offset <= r.value <= cap
    decreases |ls|
  {
    if ls == [] then Some(offset) else
      var next := Bump1(base, cap, offset, ls[0]);
      if next.Some? then BumpAll(base, cap, next.value, ls[1..]) else None
  }

  // ---------------------------------------------------------------------------------------
  // Greedy optimality

  /** `starts[i]` is where request `i` is put: not before the end of the one before it, aligned,
      and inside the arena. Zero-size requests need no address of their own. */
  predicate InOrder(base: nat, cap: nat, offset: nat, ls: seq<Layout>, starts: seq<nat>)
    decreases |ls|
  {
    |ls| == |starts| &&
    (ls != [] ==>
       && ls[0].align > 0
       && offset <= starts[0]
       && starts[0] + ls[0].size <= cap
       && (ls[0].size > 0 ==> (base + starts[0]) % ls[0].align == 0)
       && InOrder(base, cap, starts[0] + ls[0].size, ls[1..], starts[1..]))
  }

  function End(offset: nat, ls: seq<Layout>, starts: seq<nat>): nat
    requires |ls| == |starts|
  {
    if ls == [] then offset else starts[|ls| - 1] + ls[|ls| - 1].size
  }

  /** No in-order placement that starts no earlier ends before the bump placement. */
  lemma {:induction false} BumpEndsFirst(base: nat, cap: nat, offset: nat, from: nat, ls: seq<Layout>, starts: seq<nat>)
    requires AllValid(ls) && offset <= from && offset <= cap
    requires InOrder(base, cap, from, ls, starts)
    ensures BumpAll(base, cap, offset, ls).Some?
    ensures BumpAll(base, cap, offset, ls).value <= End(from, ls, starts)
    decreases |ls|
  {
    if ls != [] {
      if ls[0].size > 0 {
        PadIsLeast(base + offset, ls[0].align, base + starts[0]);
      }
      var next := Bump1(base, cap, offset, ls[0]).value;
      BumpEndsFirst(base, cap, next, starts[0] + ls[0].size, ls[1..], starts[1..]);
      assert ls[1..] != [] ==> ls[1..][|ls| - 2] == ls[|ls| - 1] && starts[1..][|ls| - 2] == starts[|ls| - 1];
    }
  }

  /** The placement the allocator itself makes. */
  function BumpStarts(base: nat, cap: nat, offset: nat, ls: seq<Layout>): (starts: seq<nat>)
    requires AllValid(ls) && offset <= cap
    requires BumpAll(base, cap, offset, ls).Some?
    ensures InOrder(base, cap, offset, ls, starts)
    ensures End(offset, ls, starts) == BumpAll(base, cap, offset, ls).value
    decreases |ls|
  {
    if ls == [] then [] else
      var next := Bump1(base, cap, offset, ls[0]).value;
      var rest := BumpStarts(base, cap, next, ls[1..]);
      assert ls[1..] != [] ==> ls[1..][|ls| - 2] == ls[|ls| - 1];
      [next - ls[0].size] + rest
  }

  ghost predicate SomePlacementFits(base: nat, cap: nat, offset: nat, ls: seq<Layout>) {
    exists starts: seq<nat> :: InOrder(base, cap, offset, ls, starts)
  }

  /** The allocator runs out of memory exactly when no in-order placement fits at all. */
  lemma OutOfMemoryIffNothingFits(base: nat, cap: nat, offset: nat, ls: seq<Layout>)
    requires AllValid(ls) && offset <= cap
    ensures BumpAll(base, cap, offset, ls).None? <==> !SomePlacementFits(base, cap, offset, ls)
  {
    if BumpAll(base, cap, offset, ls).Some? {
      var starts := BumpStarts(base, cap, offset, ls);
      assert InOrder(base, cap, offset, ls, starts);
    }
    if SomePlacementFits(base, cap, offset, ls) {
      var starts: seq<nat> :| InOrder(base, cap, offset, ls, starts);
      BumpEndsFirst(base, cap, offset, offset, ls, starts);
    }
  }

  // ---------------------------------------------------------------------------------------
  // Capacity that no order of first polls can exhaust

  function TotalSize(ls: seq<Layout>): nat {
    if ls == [] then 0 else ls[0].size + TotalSize(ls[1..])
  }

  /** Sizes plus the worst padding of each request. */
  function Budget(ls: seq<Layout>): (b: nat)
    requires AllValid(ls)
  {
    if ls == [] then 0 else ls[0].size + ls[0].align - 1 + Budget(ls[1..])
  }

  lemma {:induction false} OffsetWithinBudget(base: nat, cap: nat, offset: nat, ls: seq<Layout>)
    requires AllValid(ls) && offset <= cap
    ensures offset + Budget(ls) <= cap ==> BumpAll(base, cap, offset, ls).Some?
    ensures BumpAll(base, cap, offset, ls).Some? ==>
              offset + TotalSize(ls) <= BumpAll(base, cap, offset, ls).value <= offset + Budget(ls)
    decreases |ls|
  {
    if ls != [] {
      var next := Bump1(base, cap, offset, ls[0]);
      if next.Some? {
        OffsetWithinBudget(base, cap, next.value, ls[1..]);
      }
    }
  }

  lemma {:induction false} BudgetSplit(a: seq<Layout>, b: seq<Layout>)
    requires AllValid(a) && AllValid(b)
    ensures AllValid(a + b)
    ensures Budget(a + b) == Budget(a) + Budget(b)
  {
    if a == [] {
      assert a + b == b;
    } else {
      BudgetSplit(a[1..], b);
      assert (a + b)[1..] == a[1..] + b;
    }
  }

  function Without<T>(s: seq<T>, i: nat): (r: seq<T>)
    requires i < |s|
    ensures multiset(s) == multiset(r) + multiset{s[i]}
  {
    assert s == s[..i] + [s[i]] + s[i + 1..];
    s[..i] + s[i + 1..]
  }

  lemma BudgetWithout(ls: seq<Layout>, i: nat)
    requires AllValid(ls) && i < |ls|
    ensures AllValid(Without(ls, i))
    ensures Budget(ls) == Budget(Without(ls, i)) + ls[i].size + ls[i].align - 1
  {
    assert ls == ls[..i] + ls[i..];
    BudgetSplit(ls[..i], ls[i..]);
    BudgetSplit(ls[..i], ls[i + 1..]);
    assert ls[i..][1..] == ls[i + 1..];
  }

  lemma PartIsValid(part: seq<Layout>, all: seq<Layout>)
    requires AllValid(all)
    requires multiset(part) <= multiset(all)
    ensures AllValid(part)
  {
    forall j | 0 <= j < |part| ensures part[j].Valid() {
      assert part[j] in multiset(part);
      assert part[j] in multiset(all);
      assert part[j] in all;
    }
  }

  lemma RemoveFirst<T(!new)>(part: seq<T>, all: seq<T>) returns (i: nat)
    requires part != [] && multiset(part) <= multiset(all)
    ensures i < |all| && all[i] == part[0]
    ensures multiset(part[1..]) <= multiset(Without(all, i))
  {
    assert part == [part[0]] + part[1..];
    assert part[0] in multiset(part);
    assert part[0] in multiset(all);
    i :| 0 <= i < |all| && all[i] == part[0];
    var rest := Without(all, i);
    forall x ensures multiset(part[1..])[x] <= multiset(rest)[x] {
      assert multiset(part)[x] <= multiset(all)[x];
      assert multiset(part)[x] == multiset(part[1..])[x] + multiset{part[0]}[x];
    }
  }

  lemma {:induction false} BudgetOfPart(part: seq<Layout>, all: seq<Layout>)
    requires AllValid(all) && AllValid(part)
    requires multiset(part) <= multiset(all)
    ensures Budget(part) <= Budget(all)
  {
    if part != [] {
      var i := RemoveFirst(part, all);
      BudgetWithout(all, i);
      BudgetOfPart(part[1..], Without(all, i));
    }
  }

  lemma {:induction false} TotalSizeSplit(a: seq<Layout>, b: seq<Layout>)
    ensures TotalSize(a + b) == TotalSize(a) + TotalSize(b)
  {
    if a == [] {
      assert a + b == b;
    } else {
      TotalSizeSplit(a[1..], b);
      assert (a + b)[1..] == a[1..] + b;
    }
  }

  lemma {:induction false} TotalSizeOfPart(part: seq<Layout>, all: seq<Layout>)
    requires multiset(part) <= multiset(all)
    ensures TotalSize(part) <= TotalSize(all)
  {
    if part != [] {
      var i := RemoveFirst(part, all);
      assert all == all[..i] + all[i..] && all[i..][1..] == all[i + 1..];
      TotalSizeSplit(all[..i], all[i..]);
      TotalSizeSplit(all[..i], all[i + 1..]);
      TotalSizeOfPart(part[1..], Without(all, i));
    }
  }

  /** A capacity of `Budget(boxes)` serves every subset of `boxes`, allocated in every order,
      from every base address; less than their total size serves no order of all of them. */
  lemma NoPollOrderPanics(base: nat, cap: nat, boxes: seq<Layout>, order: seq<Layout>)
    requires AllValid(boxes)
    requires multiset(order) <= multiset(boxes)
    ensures AllValid(order)
    ensures Budget(boxes) <= cap ==> BumpAll(base, cap, 0, order).Some?
    ensures multiset(order) == multiset(boxes) && TotalSize(boxes) > cap ==> BumpAll(base, cap, 0, order).None?
  {
    PartIsValid(order, boxes);
    if multiset(order) == multiset(boxes) {
      TotalSizeOfPart(boxes, order);
    }
    BudgetOfPart(order, boxes);
    OffsetWithinBudget(base, cap, 0, order);
  }

  // ---------------------------------------------------------------------------------------
  // Repeated allocations of one type

  function Repeat(l: Layout, k: nat): (ls: seq<Layout>)
    ensures |ls| == k && forall i :: 0 <= i < k ==> ls[i] == l
  {
    seq(k, i => l)
  }

  lemma SumOfMultiples(a: nat, b: nat, align: nat)
    requires align > 0 && a % align == 0 && b % align == 0
    ensures (a + b) % align == 0
  {
    assert a == (a / align) * align && b == (b / align) * align;
    QuotientUnique(a + b, align, a / align + b / align, 0);
  }

  /** Where `k` allocations of one type end: one leading pad and then exactly `k` sizes. */
  function AfterRepeat(base: nat, offset: nat, l: Layout, k: nat): nat
    requires l.Valid()
  {
    if k == 0 || l.size == 0 then offset else offset + Pad(base + offset, l.align) + k * l.size
  }

  lemma MultipleOfAlign(l: Layout, k: nat)
    requires l.Valid()
    ensures k * l.size % l.align == 0
  {
    assert k * l.size == (k * (l.size / l.align)) * l.align by {
      assert l.size == (l.size / l.align) * l.align;
      Associate(k, l.size / l.align, l.align);
    }
    QuotientUnique(k * l.size, l.align, k * (l.size / l.align), 0);
  }

  lemma AfterRepeatStep(base: nat, cap: nat, offset: nat, l: Layout, k: nat)
    requires l.Valid() && AfterRepeat(base, offset, l, k) <= cap
    ensures var next := AfterRepeat(base, offset, l, k + 1);
            Bump1(base, cap, AfterRepeat(base, offset, l, k), l) == if next <= cap then Some(next) else None
  {
    assert (k + 1) * l.size == k * l.size + l.size;
    if k > 0 && l.size > 0 {
      var start := base + offset + Pad(base + offset, l.align);
      MultipleOfAlign(l, k);
      SumOfMultiples(start, k * l.size, l.align);
    }
  }

  lemma AfterRepeatGrows(base: nat, offset: nat, l: Layout, k: nat, n: nat)
    requires l.Valid() && k <= n
    ensures AfterRepeat(base, offset, l, k) <= AfterRepeat(base, offset, l, n)
  {
    assert n * l.size == k * l.size + (n - k) * l.size;
  }

  lemma Associate(x: int, y: int, z: int)
    ensures x * (y * z) == (x * y) * z
  {
  }

  lemma {:induction false} BumpAllSnoc(base: nat, cap: nat, offset: nat, ls: seq<Layout>, l: Layout)
    requires AllValid(ls) && l.Valid() && offset <= cap
    ensures AllValid(ls + [l])
    ensures BumpAll(base, cap, offset, ls + [l]) ==
            var prev := BumpAll(base, cap, offset, ls);
            if prev.Some? then Bump1(base, cap, prev.value, l) else None
    decreases |ls|
  {
    if ls == [] {
      assert (ls + [l])[1..] == [];
    } else {
      assert (ls + [l])[1..] == ls[1..] + [l];
      var next := Bump1(base, cap, offset, ls[0]);
      if next.Some? {
        BumpAllSnoc(base, cap, next.value, ls[1..], l);
      }
    }
  }

  lemma {:induction false} RepeatedGrowth(base: nat, cap: nat, offset: nat, l: Layout, k: nat)
    requires l.Valid() && offset <= cap
    ensures var end := AfterRepeat(base, offset, l, k);
            BumpAll(base, cap, offset, Repeat(l, k)) == if end <= cap then Some(end) else None
  {
    if k > 0 {
      RepeatedGrowth(base, cap, offset, l, k - 1);
      assert Repeat(l, k) == Repeat(l, k - 1) + [l];
      BumpAllSnoc(base, cap, offset, Repeat(l, k - 1), l);
      if AfterRepeat(base, offset, l, k - 1) <= cap {
        AfterRepeatStep(base, cap, offset, l, k - 1);
      } else {
        assert k * l.size == (k - 1) * l.size + l.size;
      }
    }
  }

  /** How many allocations of `l` succeed from `offset` on. */
  function Capacity(base: nat, cap: nat, offset: nat, l: Layout): nat
    requires l.Valid() && l.size > 0
  {
    var start := offset + Pad(base + offset, l.align);
    if start <= cap then (cap - start) / l.size else 0
  }

  lemma CapacityExact(base: nat, cap: nat, offset: nat, l: Layout, k: nat)
    requires l.Valid() && l.size > 0 && offset <= cap
    ensures AfterRepeat(base, offset, l, k) <= cap <==> k <= Capacity(base, cap, offset, l)
    ensures BumpAll(base, cap, offset, Repeat(l, k)).Some? <==> k <= Capacity(base, cap, offset, l)
  {
    RepeatedGrowth(base, cap, offset, l, k);
    var start := offset + Pad(base + offset, l.align);
    if start <= cap {
      DivBound(cap - start, l.size, k);
    }
  }

  lemma DivBound(total: nat, size: nat, k: nat)
    requires size > 0
    ensures k * size <= total <==> k <= total / size
  {
    var q := total / size;
    assert total == q * size + total % size;
    if k <= q {
      assert k * size <= q * size;
    } else {
      assert k * size >= (q + 1) * size;
    }
  }
}
