/** The payload arena of the generated invoke bridge: outputs packed one behind another, each at
    a multiple of its alignment, and the checks with which the loader takes frames out again.
    `size_t` is 32 bits wide. */
module Arena {
  import opened Options
  import opened Leb128

  const UINT32_MAX: nat := 0xFFFF_FFFF
  const UINT16_MAX: nat := 0xFFFF
  const ARENA_ALIGNMENT: nat := 8

  datatype Output = Output(payload: Bytes, requiredAlignment: nat, alignment: nat)

  datatype Frame = Frame(offset: nat, size: nat, alignment: nat)

  datatype Packed = Packed(arena: Bytes, frames: seq<Frame>)

  function AlignmentOf(x: Output): (r: nat)
    ensures r >= 1
  {
    var wanted := if x.requiredAlignment > 0 then x.requiredAlignment else x.alignment;
    if wanted > 1 then wanted else 1
  }

  function Padding(offset: nat, alignment: nat): (r: nat)
    requires alignment >= 1
    ensures r < alignment && (offset + r) % alignment == 0
  {
    var remainder := offset % alignment;
    var padding := if remainder == 0 then 0 else alignment - remainder;
    PaddingAligns(offset, alignment);
    padding
  }

  lemma PaddingAligns(offset: nat, alignment: nat)
    requires alignment >= 1
    ensures offset % alignment != 0 ==> (offset + (alignment - offset % alignment)) % alignment == 0
  {
    var q, r := offset / alignment, offset % alignment;
    if r != 0 {
      assert offset + (alignment - r) == (q + 1) * alignment by { assert offset == q * alignment + r; }
      MultipleOf(q + 1, alignment);
    }
  }

  lemma {:induction false} MultipleOf(q: nat, a: nat)
    requires a >= 1
    ensures q * a % a == 0
  {
    if q > 0 {
      MultipleOf(q - 1, a);
      assert q * a == (q - 1) * a + a;
      assert (q * a) % a == ((q - 1) * a) % a by { AddOnce((q - 1) * a, a); }
    }
  }

  lemma AddOnce(x: nat, a: nat)
    requires a >= 1
    ensures (x + a) % a == x % a
  {
    var q, r := x / a, x % a;
    assert x + a == (q + 1) * a + r;
    Remainder(x + a, q + 1, r, a);
  }

  lemma Remainder(x: nat, q: nat, r: nat, a: nat)
    requires a >= 1 && r < a && x == q * a + r
    ensures x % a == r
  {
    var p := x / a;
    assert x == p * a + x % a;
    if p < q {
      Scales(p, q, a);
    } else if q < p {
      Scales(q, p, a);
    }
  }

  lemma Scales(p: nat, q: nat, a: nat)
    requires p < q
    ensures p * a + a <= q * a
  {
    var d: nat := q - p - 1;
    assert q * a == (p + 1 + d) * a == p * a + a + d * a;
    assert d * a >= 0;
  }

  function Zeros(n: nat): (r: Bytes)
    ensures |r| == n && forall i: nat :: i < n ==> r[i] == 0
  {
    seq(n, i => 0)
  }

  // ----- the layout without limits --------------------------------------------------------------------

  function Packing(xs: seq<Output>): Packed {
    if |xs| == 0 then Packed([], [])
    else
      var before, x := Packing(xs[..|xs| - 1]), xs[|xs| - 1];
      Behind(before, x)
  }

  /** One more payload at the next offset that is aligned for it, with zeros up to there. */
  function Behind(p: Packed, x: Output): Packed {
    var padding := Padding(|p.arena|, AlignmentOf(x));
    Packed(p.arena + Zeros(padding) + x.payload, p.frames + [Frame(|p.arena| + padding, |x.payload|, AlignmentOf(x))])
  }

  /** The frame carries the alignment the output requires, or else the one it has, or else none, and
      lies at a multiple of it. */
  ghost predicate Aligned(f: Frame, x: Output) {
    && (x.requiredAlignment > 0 ==> f.alignment == x.requiredAlignment)
    && (x.requiredAlignment == 0 && x.alignment > 0 ==> f.alignment == x.alignment)
    && (x.requiredAlignment == 0 && x.alignment == 0 ==> f.alignment == 1)
    && f.alignment > 0 && f.offset % f.alignment == 0
  }

  ghost predicate Holds(p: Packed, f: Frame, x: Output) {
    && f.size == |x.payload| && Aligned(f, x)
    && f.offset + f.size <= |p.arena| && p.arena[f.offset..f.offset + f.size] == x.payload
  }

  /** Where the first `k` frames end. */
  ghost function EndOf(fs: seq<Frame>, k: nat): nat
    requires k <= |fs|
  {
    if k == 0 then 0 else fs[k - 1].offset + fs[k - 1].size
  }

  ghost predicate TightAt(fs: seq<Frame>, k: nat)
    requires k < |fs|
  {
    EndOf(fs, k) <= fs[k].offset < EndOf(fs, k) + fs[k].alignment
  }

  /** No frame is further away than its alignment asks for, and nothing follows the last. */
  ghost predicate Tight(p: Packed) {
    && (forall k: nat :: k < |p.frames| ==> TightAt(p.frames, k))
    && |p.arena| == EndOf(p.frames, |p.frames|)
  }

  predicate Inside(f: Frame, i: nat) {
    f.offset <= i < f.offset + f.size
  }

  ghost predicate InOrder(fs: seq<Frame>) {
    forall k: nat, l: nat :: k < l < |fs| ==> fs[k].offset + fs[k].size <= fs[l].offset
  }

  ghost predicate ZeroOutside(p: Packed) {
    forall i: nat :: i < |p.arena| && p.arena[i] != 0 ==> exists k: nat :: k < |p.frames| && Inside(p.frames[k], i)
  }

  /** Every payload is where its frame says, aligned, in order, apart from the others, no further
      away than it must be, and there is nothing but zeros between. */
  ghost predicate GoodPacking(xs: seq<Output>, p: Packed) {
    && |p.frames| == |xs| && (forall k: nat :: k < |xs| ==> Holds(p, p.frames[k], xs[k]))
    && InOrder(p.frames) && ZeroOutside(p) && Tight(p)
  }

  lemma HoldsBehind(p: Packed, f: Frame, x: Output, y: Output)
    requires Holds(p, f, x)
    ensures Holds(Behind(p, y), f, x)
  {
    var q := Behind(p, y);
    assert q.arena[f.offset..f.offset + f.size] == p.arena[f.offset..f.offset + f.size];
  }

  lemma LastHolds(p: Packed, x: Output)
    ensures Holds(Behind(p, x), Behind(p, x).frames[|p.frames|], x)
  {
    var q := Behind(p, x);
    var f := q.frames[|p.frames|];
    assert q.arena[f.offset..f.offset + f.size] == x.payload;
  }

  lemma InOrderBehind(p: Packed, x: Output)
    requires InOrder(p.frames) && forall k: nat :: k < |p.frames| ==> p.frames[k].offset + p.frames[k].size <= |p.arena|
    ensures InOrder(Behind(p, x).frames)
  {
  }

  lemma TightStays(fs: seq<Frame>, f: Frame, k: nat)
    requires k < |fs| && TightAt(fs, k)
    ensures TightAt(fs + [f], k)
  {
  }

  lemma LastIsTight(p: Packed, x: Output)
    requires |p.arena| == EndOf(p.frames, |p.frames|)
    ensures var q := Behind(p, x);
      && |q.frames| == |p.frames| + 1 && TightAt(q.frames, |p.frames|)
      && |q.arena| == EndOf(q.frames, |q.frames|)
  {
    hide Padding, AlignmentOf;
    var q, n := Behind(p, x), |p.frames|;
    assert n > 0 ==> q.frames[n - 1] == p.frames[n - 1];
    assert EndOf(q.frames, n) == EndOf(p.frames, n);
  }

  lemma TightBehind(p: Packed, x: Output)
    requires Tight(p)
    ensures Tight(Behind(p, x))
  {
    hide TightAt, EndOf, Padding, AlignmentOf;
    LastIsTight(p, x);
    var q := Behind(p, x);
    forall k: nat | k < |p.frames|
      ensures TightAt(q.frames, k)
    {
      TightStays(p.frames, q.frames[|p.frames|], k);
    }
  }

  lemma ZeroOutsideBehind(p: Packed, x: Output)
    requires ZeroOutside(p)
    ensures ZeroOutside(Behind(p, x))
  {
    var q := Behind(p, x);
    var n := |p.frames|;
    assert forall i: nat :: |p.arena| <= i < q.frames[n].offset ==> q.arena[i] == 0;
    forall i: nat | i < |q.arena| && q.arena[i] != 0
      ensures exists k: nat :: k < |q.frames| && Inside(q.frames[k], i)
    {
      if i < |p.arena| {
        assert q.arena[i] == p.arena[i];
        var k: nat :| k < |p.frames| && Inside(p.frames[k], i);
        assert q.frames[k] == p.frames[k];
      } else if i >= q.frames[n].offset {
        assert Inside(q.frames[n], i);
      }
    }
  }

  lemma {:induction false} PackingIsGood(xs: seq<Output>)
    ensures GoodPacking(xs, Packing(xs))
  {
    hide Holds, InOrder, ZeroOutside, Tight, Behind;
    if |xs| == 0 {
      NothingPacked();
    } else {
      var init, x := xs[..|xs| - 1], xs[|xs| - 1];
      var p := Packing(init);
      PackingIsGood(init);
      var q := Behind(p, x);
      assert q.frames[..|init|] == p.frames && |q.frames| == |init| + 1 by { FramesBehind(p, x); }
      forall k: nat | k < |xs|
        ensures Holds(q, q.frames[k], xs[k])
      {
        if k < |init| {
          assert q.frames[k] == q.frames[..|init|][k] && init[k] == xs[k];
          HoldsBehind(p, p.frames[k], init[k], x);
        } else {
          LastHolds(p, x);
        }
      }
      forall k: nat | k < |p.frames|
        ensures p.frames[k].offset + p.frames[k].size <= |p.arena|
      {
        HoldsFits(p, p.frames[k], init[k]);
      }
      InOrderBehind(p, x);
      ZeroOutsideBehind(p, x);
      TightBehind(p, x);
    }
  }

  lemma NothingPacked()
    ensures InOrder([]) && ZeroOutside(Packed([], [])) && Tight(Packed([], []))
  {
  }

  lemma FramesBehind(p: Packed, x: Output)
    ensures |Behind(p, x).frames| == |p.frames| + 1 && Behind(p, x).frames[..|p.frames|] == p.frames
  {
  }

  lemma HoldsFits(p: Packed, f: Frame, x: Output)
    requires Holds(p, f, x)
    ensures f.offset + f.size <= |p.arena|
  {
  }

  // ----- the layout is the only one ---------------------------------------------------------------------

  lemma OneMultiple(a: nat, lo: nat, x: nat, y: nat)
    requires a >= 1 && lo <= x < lo + a && lo <= y < lo + a && x % a == 0 && y % a == 0
    ensures x == y
  {
    var m, n := x / a, y / a;
    assert x == m * a && y == n * a;
    if m < n {
      Scales(m, n, a);
    } else if n < m {
      Scales(n, m, a);
    }
  }

  lemma SameFrame(p: Packed, q: Packed, k: nat, x: Output)
    requires k < |p.frames| && k < |q.frames| && TightAt(p.frames, k) && TightAt(q.frames, k)
    requires Holds(p, p.frames[k], x) && Holds(q, q.frames[k], x) && p.frames[..k] == q.frames[..k]
    ensures p.frames[k] == q.frames[k]
  {
    var f, g := p.frames[k], q.frames[k];
    assert k > 0 ==> p.frames[k - 1] == p.frames[..k][k - 1] && q.frames[k - 1] == q.frames[..k][k - 1];
    assert f.alignment == g.alignment && f.size == g.size;
    OneMultiple(f.alignment, EndOf(p.frames, k), f.offset, g.offset);
  }

  /** Two good packings of the same outputs have the same frames. */
  lemma {:induction false} SameFrames(xs: seq<Output>, p: Packed, q: Packed, k: nat)
    requires GoodPacking(xs, p) && GoodPacking(xs, q) && k <= |xs|
    ensures p.frames[..k] == q.frames[..k]
  {
    hide Holds, InOrder, ZeroOutside, TightAt;
    if k > 0 {
      SameFrames(xs, p, q, k - 1);
      SameFrame(p, q, k - 1, xs[k - 1]);
      OneMoreTaken(p.frames, k);
      OneMoreTaken(q.frames, k);
    }
  }

  lemma OneMoreTaken<T>(s: seq<T>, k: nat)
    requires 0 < k <= |s|
    ensures s[..k] == s[..k - 1] + [s[k - 1]]
  {
  }

  lemma HeldByte(p: Packed, f: Frame, x: Output, i: nat)
    requires Holds(p, f, x) && Inside(f, i)
    ensures i - f.offset < |x.payload| && i < |p.arena| && p.arena[i] == x.payload[i - f.offset]
  {
    assert p.arena[i] == p.arena[f.offset..f.offset + f.size][i - f.offset];
  }

  lemma SameByte(xs: seq<Output>, p: Packed, q: Packed, i: nat)
    requires GoodPacking(xs, p) && GoodPacking(xs, q) && p.frames == q.frames && i < |p.arena| && i < |q.arena|
    ensures p.arena[i] == q.arena[i]
  {
    hide Holds, InOrder, Tight, Inside;
    if k: nat :| k < |p.frames| && Inside(p.frames[k], i) {
      HeldByte(p, p.frames[k], xs[k], i);
      HeldByte(q, p.frames[k], xs[k], i);
    }
  }

  /** The layout is decided by what it has to be: any good packing is the one that is made. */
  lemma PackingIsUnique(xs: seq<Output>, p: Packed)
    requires GoodPacking(xs, p)
    ensures p == Packing(xs)
  {
    hide Holds, InOrder, ZeroOutside, Packing;
    var q := Packing(xs);
    PackingIsGood(xs);
    SameFrames(xs, p, q, |xs|);
    assert p.frames[..|xs|] == p.frames && q.frames[..|xs|] == q.frames;
    forall i: nat | i < |p.arena|
      ensures p.arena[i] == q.arena[i]
    {
      SameByte(xs, p, q, i);
    }
    assert p.arena == q.arena;
  }

  lemma {:induction false} PackingGrows(xs: seq<Output>, k: nat)
    requires k <= |xs|
    ensures |Packing(xs[..k]).arena| <= |Packing(xs).arena|
    decreases |xs|
  {
    hide Padding, AlignmentOf;
    if k < |xs| {
      PackingGrows(xs[..|xs| - 1], k);
      assert xs[..|xs| - 1][..k] == xs[..k];
    } else {
      assert xs[..k] == xs;
    }
  }

  // ----- packing -------------------------------------------------------------------------------------------

  /** Pack the outputs, or report that the arena would leave the 32-bit offset range: exactly when
      the layout is longer than that. */
  method Pack(xs: seq<Output>) returns (r: Option<Packed>)
    ensures r == if |Packing(xs).arena| <= UINT32_MAX then Some(Packing(xs)) else None
    ensures r.Some? ==> GoodPacking(xs, r.value)
  {
    hide Padding, AlignmentOf, Packing, GoodPacking;
    var arena: Bytes, frames: seq<Frame> := [], [];
    assert Packing(xs[..0]) == Packed([], []) by { NoOutputs(xs[..0]); }
    for i := 0 to |xs|
      invariant Packed(arena, frames) == Packing(xs[..i])
      invariant |arena| <= UINT32_MAX
    {
      var x := xs[i];
      OneMoreOutput(xs, i);
      PackingGrows(xs, i + 1);
      var padding := Padding(|arena|, AlignmentOf(x));
      if padding > UINT32_MAX - |arena| {
        return None;
      }
      var offset := |arena| + padding;
      if offset > UINT32_MAX || |x.payload| > UINT32_MAX - offset {
        return None;
      }
      arena := arena + Zeros(padding) + x.payload;
      frames := frames + [Frame(offset, |x.payload|, AlignmentOf(x))];
    }
    assert xs[..|xs|] == xs;
    PackingIsGood(xs);
    return Some(Packed(arena, frames));
  }

  lemma NoOutputs(xs: seq<Output>)
    requires xs == []
    ensures Packing(xs) == Packed([], [])
  {
  }

  lemma OneMoreOutput(xs: seq<Output>, i: nat)
    requires i < |xs|
    ensures Packing(xs[..i + 1]) == Behind(Packing(xs[..i]), xs[i])
  {
    assert xs[..i + 1][..i] == xs[..i];
  }

  // ----- loading ---------------------------------------------------------------------------------------------

  predicate ExceedsArena(offset: nat, size: nat, arenaSize: nat) {
    offset > arenaSize || size > arenaSize - offset
  }

  /** The arena's alignment in the message: the largest any frame asks for. */
  function ArenaAlignment(fs: seq<Frame>): (r: nat)
    ensures r >= ARENA_ALIGNMENT
  {
    if |fs| == 0 then ARENA_ALIGNMENT
    else
      var rest := ArenaAlignment(fs[..|fs| - 1]);
      if fs[|fs| - 1].alignment > rest then fs[|fs| - 1].alignment else rest
  }

  /** Memory the bridge has handed out. */
  datatype Allocation = Allocation(address: nat, size: nat)

  predicate Owned(allocations: seq<Allocation>, address: nat, length: nat) {
    length == 0 || (address != 0 && exists i: nat :: i < |allocations| && OwnedBy(allocations[i], address, length))
  }

  predicate OwnedBy(a: Allocation, address: nat, length: nat) {
    address >= a.address && !ExceedsArena(address - a.address, length, a.size)
  }

  method AllocationContains(allocations: seq<Allocation>, address: nat, length: nat) returns (r: bool)
    ensures r == Owned(allocations, address, length)
  {
    if length == 0 {
      return true;
    }
    if address == 0 {
      return false;
    }
    for i := 0 to |allocations|
      invariant forall j: nat :: j < i ==> !OwnedBy(allocations[j], address, length)
    {
      if address < allocations[i].address {
        continue;
      }
      if !ExceedsArena(address - allocations[i].address, length, allocations[i].size) {
        assert OwnedBy(allocations[i], address, length);
        return true;
      }
    }
    return false;
  }

  /** Without an arena, a frame's offset is the address of memory the bridge handed out. */
  predicate InRange(f: Frame, arenaSize: nat, allocations: seq<Allocation>) {
    if f.size > 0 && arenaSize == 0 then
      f.offset <= UINT32_MAX && f.size <= UINT32_MAX && Owned(allocations, f.offset, f.size)
    else !ExceedsArena(f.offset, f.size, arenaSize)
  }

  function AddressOf(f: Frame, arenaSize: nat, base: nat): Option<nat> {
    if f.size == 0 then None else Some(if arenaSize == 0 then f.offset else base + f.offset)
  }

  /** A frame is taken if its alignment is within the ABI's limit, its range is there, and its
      address a multiple of its alignment. */
  predicate Accepts(f: Frame, arenaSize: nat, base: nat, allocations: seq<Allocation>) {
    var alignment := if f.alignment > 0 then f.alignment else 1;
    var address := AddressOf(f, arenaSize, base);
    && alignment <= UINT16_MAX && InRange(f, arenaSize, allocations)
    && (address.Some? && alignment > 1 ==> address.value % alignment == 0)
  }

  /** What acceptance means: a multiple of an alignment of at most 65535, and a range that lies wholly
      in the arena or, if there is none, in one block of memory that was handed out. */
  lemma AcceptsExactly(f: Frame, arenaSize: nat, base: nat, allocations: seq<Allocation>)
    ensures Accepts(f, arenaSize, base, allocations) <==>
      && f.alignment <= 65535
      && (arenaSize > 0 || f.size == 0 ==> f.offset + f.size <= arenaSize)
      && (arenaSize > 0 && f.size > 0 && f.alignment > 1 ==> (base + f.offset) % f.alignment == 0)
      && (arenaSize == 0 && f.size > 0 ==>
            && 0 < f.offset <= 0xFFFF_FFFF && f.size <= 0xFFFF_FFFF
            && (f.alignment > 1 ==> f.offset % f.alignment == 0)
            && exists i: nat :: i < |allocations| && Spans(allocations[i], f.offset, f.size))
  {
    assert forall i: nat :: i < |allocations| ==>
      (OwnedBy(allocations[i], f.offset, f.size) <==> Spans(allocations[i], f.offset, f.size));
  }

  /** An empty range needs no block; any other lies wholly in one, and not at address zero. */
  lemma OwnedExactly(allocations: seq<Allocation>, address: nat, length: nat)
    ensures Owned(allocations, address, length) <==>
      || length == 0
      || (address > 0 && exists i: nat :: i < |allocations| && Spans(allocations[i], address, length))
  {
    assert forall i: nat :: i < |allocations| ==>
      (OwnedBy(allocations[i], address, length) <==> Spans(allocations[i], address, length));
  }

  /** The block holds the whole range. */
  ghost predicate Spans(a: Allocation, address: nat, length: nat) {
    a.address <= address && address + length <= a.address + a.size
  }

  /** The message's alignment is the least that covers the ABI's and every frame's. */
  lemma {:induction false} ArenaAlignmentIsLargest(fs: seq<Frame>)
    ensures ArenaAlignment(fs) >= 8 && forall i: nat :: i < |fs| ==> fs[i].alignment <= ArenaAlignment(fs)
    ensures ArenaAlignment(fs) == 8 || exists i: nat :: i < |fs| && fs[i].alignment == ArenaAlignment(fs)
  {
    if |fs| > 0 {
      var init := fs[..|fs| - 1];
      ArenaAlignmentIsLargest(init);
      assert forall i: nat :: i < |init| ==> init[i] == fs[i];
    }
  }

  /** Find where every frame's payload is, for an arena that lies at address `base`. */
  method Load(fs: seq<Frame>, arenaSize: nat, base: nat,
              allocations: seq<Allocation>) returns (r: Option<seq<Option<nat>>>)
    ensures r.Some? <==> forall k: nat :: k < |fs| ==> Accepts(fs[k], arenaSize, base, allocations)
    ensures r.Some? ==> |r.value| == |fs|
    ensures r.Some? ==> forall k: nat :: k < |fs| ==> r.value[k] == AddressOf(fs[k], arenaSize, base)
  {
    var inputs: seq<Option<nat>> := [];
    for i := 0 to |fs|
      invariant |inputs| == i
      invariant forall k: nat :: k < i ==> Accepts(fs[k], arenaSize, base, allocations)
      invariant forall k: nat :: k < i ==> inputs[k] == AddressOf(fs[k], arenaSize, base)
    {
      var f, address := fs[i], None;
      var alignment := if f.alignment > 0 then f.alignment else 1;
      if alignment > UINT16_MAX {
        return None;
      }
      if f.size > 0 && arenaSize == 0 {
        var owned := AllocationContains(allocations, f.offset, f.size);
        if f.offset > UINT32_MAX || f.size > UINT32_MAX || !owned {
          return None;
        }
        address := Some(f.offset);
      } else if ExceedsArena(f.offset, f.size, arenaSize) {
        return None;
      } else if f.size > 0 {
        address := Some(base + f.offset);
      }
      if address.Some? && alignment > 1 && address.value % alignment != 0 {
        return None;
      }
      inputs := inputs + [address];
    }
    return Some(inputs);
  }

  predicate PowerOfTwo(n: nat) {
    n == 1 || (n >= 2 && n % 2 == 0 && PowerOfTwo(n / 2))
  }

  lemma {:induction false} PowersDivide(a: nat, b: nat)
    requires PowerOfTwo(a) && PowerOfTwo(b) && a <= b
    ensures exists q: nat :: b == q * a
  {
    if a == 1 {
      assert b == b * 1;
    } else {
      PowersDivide(a / 2, b / 2);
      var q: nat :| b / 2 == q * (a / 2);
      assert b == q * a by { assert a == 2 * (a / 2) && b == 2 * (b / 2); }
    }
  }

  lemma {:induction false} ArenaAlignmentCovers(fs: seq<Frame>, k: nat)
    requires k < |fs| && forall i: nat :: i < |fs| ==> PowerOfTwo(fs[i].alignment)
    ensures PowerOfTwo(ArenaAlignment(fs)) && fs[k].alignment <= ArenaAlignment(fs)
  {
    var init, last := fs[..|fs| - 1], fs[|fs| - 1];
    assert PowerOfTwo(ARENA_ALIGNMENT) by { assert PowerOfTwo(2) && PowerOfTwo(4) && PowerOfTwo(8); }
    assert PowerOfTwo(last.alignment);
    if |init| > 0 {
      ArenaAlignmentCovers(init, if k < |init| then k else 0);
    }
    if k < |init| {
      assert init[k] == fs[k];
    }
  }

  lemma SumAligned(base: nat, offset: nat, whole: nat, a: nat)
    requires a >= 1 && whole >= 1 && base % whole == 0 && offset % a == 0 && exists q: nat :: whole == q * a
    ensures (base + offset) % a == 0
  {
    var q: nat :| whole == q * a;
    var m, n := base / whole, offset / a;
    assert base == m * whole && offset == n * a;
    assert base == m * q * a;
    assert base + offset == (m * q + n) * a;
    MultipleOf(m * q + n, a);
  }

  /** With powers of two for alignments and an arena placed at a multiple of the largest, the
      loader takes every frame that was packed, provided no alignment exceeds the ABI's limit. */
  lemma PackedFramesLoad(xs: seq<Output>, p: Packed, base: nat, allocations: seq<Allocation>, k: nat)
    requires GoodPacking(xs, p) && base % ArenaAlignment(p.frames) == 0 && k < |xs|
    requires forall i: nat :: i < |p.frames| ==> PowerOfTwo(p.frames[i].alignment)
    ensures Accepts(p.frames[k], |p.arena|, base, allocations) <==> p.frames[k].alignment <= UINT16_MAX
    ensures p.frames[k].size > 0 ==> AddressOf(p.frames[k], |p.arena|, base) == Some(base + p.frames[k].offset)
    ensures p.frames[k].offset + p.frames[k].size <= |p.arena|
    ensures p.arena[p.frames[k].offset..p.frames[k].offset + p.frames[k].size] == xs[k].payload
  {
    hide InOrder, ZeroOutside, Tight, AlignmentOf;
    var f := p.frames[k];
    assert Holds(p, f, xs[k]);
    ArenaAlignmentCovers(p.frames, k);
    PowersDivide(f.alignment, ArenaAlignment(p.frames));
    SumAligned(base, f.offset, ArenaAlignment(p.frames), f.alignment);
  }
}
