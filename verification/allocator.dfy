/** The two-ended bump allocator: the main heap grows up, the per-transaction arena down. */
module Allocator {
  import opened Basics
  import U256

  /** Rounding as the code does it, in 64 bits. */
  function Round16(size: nat): nat {
    ((size + 15) % U64) / 16 * 16
  }

  /** ... and as it is meant. */
  function RoundUp(size: nat): nat {
    (size + 15) / 16 * 16
  }

  /** `heap_alloc`: the new heap pointer, or nothing when it halts.  The limit is compared
      with a pointer sum that wraps. */
  function HeapNext(next: nat, low: nat, size: nat): Option<nat> {
    var end := (next + Round16(size)) % U64;
    if end > low then None else Some(end)
  }

  /** `zeg_tx_arena_alloc`: the new arena pointer; here the room left is compared. */
  function ArenaLow(next: nat, low: nat, size: nat): Option<int>
    requires next <= low
  {
    if Round16(size) > low - next then None else Some(low - Round16(size))
  }

  /** What a caller relies on: the block fits below the limit, or there is none. */
  predicate HeapRight(next: nat, low: nat, size: nat) {
    match HeapNext(next, low, size)
    case None => next + RoundUp(size) > low
    case Some(end) => end == next + RoundUp(size) && end <= low
  }

  /** The heap pointer is right exactly when the request does not run past the end of
      the address space. */
  lemma HeapRightIff(next: nat, low: nat, size: nat)
    requires next <= low < U64 && size < U64 && next % 16 == 0
    ensures HeapRight(next, low, size) <==> next + RoundUp(size) < U64
  {
    if size + 15 >= U64 {
      assert (size + 15) % U64 == size + 15 - U64;
      assert Round16(size) == 0;
    }
    if next + RoundUp(size) >= U64 && size + 15 < U64 {
      WrappedSum(next, RoundUp(size));
    }
  }

  lemma WrappedSum(next: nat, r: nat)
    requires next < U64 && r <= U64 && next + r >= U64
    ensures (next + r) % U64 == next + r - U64
  {
  }

  lemma NoWrap(p: nat, size: nat)
    requires p + RoundUp(size) < U64
    ensures (p + Round16(size)) % U64 == p + RoundUp(size)
  {
  }

  /** A request that wraps: the heap pointer moves down by sixteen. */
  lemma HugeRequestWraps(next: nat, low: nat)
    requires 16 <= next <= low < U64
    ensures HeapNext(next, low, U64 - 16) == Some(next - 16)
  {
    assert (U64 - 16 + 15) / 16 == (U64 - 16) / 16;
    WrappedSum(next, U64 - 16);
  }

  predicate ArenaRight(next: nat, low: nat, size: nat)
    requires next <= low
  {
    match ArenaLow(next, low, size)
    case None => RoundUp(size) > low - next
    case Some(newLow) => newLow == low - RoundUp(size) && newLow >= next
  }

  lemma ArenaRightIff(next: nat, low: nat, size: nat)
    requires next <= low < U64 && size < U64
    ensures ArenaRight(next, low, size) <==> size + 15 < U64
  {
    if size + 15 >= U64 {
      assert (size + 15) % U64 == size + 15 - U64;
    }
  }

  // ----- blocks ------------------------------------------------------------------------------------

  datatype Block = Block(start: nat, size: nat)

  predicate Within(b: Block, lo: nat, hi: nat) {
    lo <= b.start && b.start + b.size <= hi
  }

  predicate Disjoint(a: Block, b: Block) {
    a.start + a.size <= b.start || b.start + b.size <= a.start
  }

  ghost predicate AllDisjoint(blocks: seq<Block>) {
    forall i, j :: 0 <= i < j < |blocks| ==> Disjoint(blocks[i], blocks[j])
  }

  class Heap {
    const bottom: nat
    const top: nat
    /** The heap pointer; not set before the first allocation. */
    var next: Option<nat>
    var low: nat
    /** The bytes from `bottom` to `top`. */
    var memory: seq<Byte>
    ghost var main: seq<Block>
    ghost var arena: seq<Block>

    function Next(): nat
      reads this
    {
      match next case None => bottom case Some(n) => n
    }

    /** bottom <= next <= arena low <= top; main blocks below, arena blocks above, none
        overlapping another. */
    ghost predicate Valid()
      reads this
    {
      && bottom % 16 == 0 && top < U64 && |memory| == top - bottom
      && bottom <= Next() <= low <= top && Next() % 16 == 0
      && (forall i :: 0 <= i < |main| ==> Within(main[i], bottom, Next()))
      && (forall i :: 0 <= i < |arena| ==> Within(arena[i], low, top))
      && AllDisjoint(main) && AllDisjoint(arena)
    }

    constructor (bottom: nat, top: nat, memory: seq<Byte>)
      requires bottom <= top < U64 && bottom % 16 == 0 && |memory| == top - bottom
      ensures Valid() && main == [] && arena == [] && this.memory == memory
      ensures this.bottom == bottom && this.top == top
    {
      this.bottom, this.top, this.memory := bottom, top, memory;
      next, low := None, top;
      main, arena := [], [];
    }

    /** `heap_alloc`; halting is a false result. */
    method HeapAlloc(size: nat) returns (ok: bool, p: nat)
      requires Valid() && size < U64
      modifies this`next, this`main
      ensures p == old(Next())
      ensures ok <==> HeapNext(old(Next()), low, size).Some?
      ensures ok ==> Next() == HeapNext(old(Next()), low, size).value
      ensures !ok ==> Valid() && main == old(main) && Next() == old(Next())
      ensures ok && p + RoundUp(size) < U64 ==> Valid() && main == old(main) + [Block(p, size)]
    {
      if next.None? { next := Some(bottom); }
      p := next.value;
      var rounded := Round16(size);
      var end := (p + rounded) % U64;
      if end > low { return false, p; }
      HeapRightIff(p, low, size);
      main := main + [Block(p, size)];
      next := Some(end);
      ok := true;
    }

    /** A size within fifteen of 2^64 is rounded to nothing: no room is taken. */
    method TxArenaAlloc(size: nat) returns (ok: bool, p: nat)
      requires Valid() && size < U64
      modifies this`next, this`low, this`arena
      ensures Valid() && Next() == old(Next())
      ensures size + 15 < U64 ==> (ok <==> RoundUp(size) <= old(low) - Next())
      ensures ok && size + 15 < U64 ==> p == low == old(low) - RoundUp(size) && arena == old(arena) + [Block(p, size)]
      ensures size + 15 >= U64 ==> ok && p == low == old(low) && arena == old(arena)
      ensures !ok ==> low == old(low) && arena == old(arena)
    {
      if next.None? { next := Some(bottom); }
      ArenaRightIff(next.value, low, size);
      var rounded := Round16(size);
      if rounded > low - next.value { return false, 0; }
      low := low - rounded;
      if size + 15 < U64 { arena := arena + [Block(low, size)]; }
      return true, low;
    }

    /** All arena blocks die at once; the main heap and every byte stay as they are. */
    method TxArenaReset()
      requires Valid()
      modifies this`low, this`arena
      ensures Valid() && arena == [] && low == top
    {
      low := top;
      arena := [];
    }

    method Malloc(size: nat) returns (ok: bool, p: nat)
      requires Valid() && size < U64
      modifies this`next, this`main
      ensures p == old(Next()) && (!ok ==> Valid() && main == old(main) && Next() == old(Next()))
      ensures p + RoundUp(size) < U64 ==> (ok <==> p + RoundUp(size) <= low)
      ensures ok && p + RoundUp(size) < U64 ==> Valid() && main == old(main) + [Block(p, size)]
      ensures p + RoundUp(size) >= U64 ==> (ok <==> (p + Round16(size)) % U64 <= low)
    {
      HeapRightIff(Next(), low, size);
      ok, p := HeapAlloc(size);
    }

    /** The heap pointer moves to the next multiple of the alignment, by a mask, before
        the limit is checked; a pointer past the limit then halts. */
    method AlignedAlloc(alignment: nat, size: nat, ghost k: nat) returns (ok: bool, p: nat)
      requires Valid() && k < 64 && alignment == Pow2(k) && size < U64
      modifies this`next, this`main
      ensures p == Masked((old(Next()) + (alignment - 1)) % U64, alignment)
      ensures old(Next()) + alignment <= U64 ==> p == AlignUp(old(Next()), alignment) && p % alignment == 0 && p >= old(Next())
      ensures old(Next()) + alignment + RoundUp(size) < U64 ==> (ok <==> p + RoundUp(size) <= low)
      ensures ok && old(Next()) + alignment + RoundUp(size) < U64 ==> Valid() && main == old(main) + [Block(p, size)]
    {
      if next.None? { next := Some(bottom); }
      var cur := next.value;
      p := Masked((cur + (alignment - 1)) % U64, alignment);
      MaskAligns(cur, alignment, k);
      if cur + alignment + RoundUp(size) < U64 {
        AlignedEnd(cur, alignment, k, size, p);
        ok := PlaceAt(p, size, cur);
      } else {
        next := Some(p);
        var end := (p + Round16(size)) % U64;
        if end > low { return false, p; }
        next := Some(end);
        ok := true;
      }
    }

    /** The end of `heap_alloc`, once the pointer has been moved. */
    method PlaceAt(p: nat, size: nat, ghost mark: nat) returns (ok: bool)
      requires Valid() && mark == Next() <= p && p % 16 == 0 && p + RoundUp(size) < U64
      modifies this`next, this`main
      ensures ok <==> p + RoundUp(size) <= low
      ensures ok ==> Valid() && main == old(main) + [Block(p, size)]
    {
      next := Some(p);
      NoWrap(p, size);
      var end := (p + Round16(size)) % U64;
      if end > low { return false; }
      Placed(mark, p, size);
      next := Some(end);
      ok := true;
    }

    /** A new main block above all others. */
    ghost method Placed(mark: nat, p: nat, size: nat)
      requires forall i :: 0 <= i < |main| ==> Within(main[i], bottom, mark)
      requires AllDisjoint(main) && bottom <= mark <= p
      modifies this`main
      ensures main == old(main) + [Block(p, size)] && AllDisjoint(main)
      ensures forall i :: 0 <= i < |main| ==> Within(main[i], bottom, p + RoundUp(size))
    {
      main := main + [Block(p, size)];
    }

    /** A copy that first reads everything it will write, as the DMA copy does. */
    method CopyWithin(dst: nat, src: nat, n: nat)
      requires Valid() && bottom <= dst && dst + n <= top && bottom <= src && src + n <= top
      modifies this`memory
      ensures Valid() && Bytes(memory, bottom, dst, n) == Bytes(old(memory), bottom, src, n)
      ensures memory[..dst - bottom] == old(memory)[..dst - bottom]
      ensures memory[dst + n - bottom..] == old(memory)[dst + n - bottom..]
    {
      var piece := memory[src - bottom..src - bottom + n];
      memory := memory[..dst - bottom] + piece + memory[dst + n - bottom..];
    }

    /** `realloc` of a main block: the new block starts with the old one's bytes, up to
        the smaller size, and no live byte changes, although source and target of the
        copy may overlap. */
    method Realloc(from: Block, size: nat) returns (ok: bool, p: nat)
      requires Valid() && from in main && size < U64
      requires HeapNext(Next(), low, size).Some? ==> Next() + RoundUp(size) < U64
      modifies this`next, this`main, this`memory
      ensures Valid()
      ensures p == old(Next()) && (ok <==> HeapNext(p, low, size).Some?)
      ensures ok ==> p + RoundUp(size) <= low
      ensures !ok ==> memory == old(memory) && main == old(main)
      ensures ok ==> main == old(main) + [Block(p, size)]
      ensures ok ==> forall n :: 0 <= n <= size && n <= from.size ==>
        Bytes(memory, bottom, p, n) == Bytes(old(memory), bottom, from.start, n)
      ensures ok ==> forall b :: b in old(main) || b in arena ==>
        Bytes(memory, bottom, b.start, b.size) == Bytes(old(memory), bottom, b.start, b.size)
    {
      ghost var blocks, mark := main, Next();
      ghost var i :| 0 <= i < |main| && main[i] == from;
      assert Within(main[i], bottom, mark);
      HeapRightIff(mark, low, size);
      ok, p := HeapAlloc(size);
      if ok { CopyBlock(from, p, size, blocks, mark); }
    }

    /** The copy into a new block above `mark`. */
    method CopyBlock(from: Block, p: nat, size: nat, ghost blocks: seq<Block>, ghost mark: nat)
      requires Valid() && Within(from, bottom, mark) && bottom <= mark <= p && p + size <= low
      requires forall i :: 0 <= i < |blocks| ==> Within(blocks[i], bottom, mark)
      modifies this`memory
      ensures Valid()
      ensures forall n :: 0 <= n <= size && n <= from.size ==>
        Bytes(memory, bottom, p, n) == Bytes(old(memory), bottom, from.start, n)
      ensures forall b :: b in blocks || b in arena ==>
        Bytes(memory, bottom, b.start, b.size) == Bytes(old(memory), bottom, b.start, b.size)
    {
      ghost var bytes := memory;
      CopyWithin(p, from.start, size);
      forall n | 0 <= n <= size && n <= from.size
        ensures Bytes(memory, bottom, p, n) == Bytes(bytes, bottom, from.start, n)
      {
        FirstBytes(memory, bytes, bottom, p, from.start, size, n);
      }
      BlocksBelow(memory, bytes, bottom, blocks, mark, p);
      BlocksAbove(memory, bytes, bottom, arena, low, top, p + size);
    }
  }

  lemma BlocksBelow(after: seq<Byte>, before: seq<Byte>, bottom: nat, blocks: seq<Block>, hi: nat, at: nat)
    requires bottom <= hi <= at && at - bottom <= |after| == |before|
    requires after[..at - bottom] == before[..at - bottom]
    requires forall i :: 0 <= i < |blocks| ==> Within(blocks[i], bottom, hi)
    ensures forall b :: b in blocks ==> Bytes(after, bottom, b.start, b.size) == Bytes(before, bottom, b.start, b.size)
  {
    forall b | b in blocks ensures Bytes(after, bottom, b.start, b.size) == Bytes(before, bottom, b.start, b.size) {
      var j :| 0 <= j < |blocks| && blocks[j] == b;
      assert Within(blocks[j], bottom, hi);
      BelowUnchanged(after, before, at - bottom, b.start - bottom, b.size);
    }
  }

  lemma BlocksAbove(after: seq<Byte>, before: seq<Byte>, bottom: nat, blocks: seq<Block>, lo: nat, hi: nat, at: nat)
    requires bottom <= at <= lo <= hi && hi - bottom == |after| == |before|
    requires after[at - bottom..] == before[at - bottom..]
    requires forall i :: 0 <= i < |blocks| ==> Within(blocks[i], lo, hi)
    ensures forall b :: b in blocks ==> Bytes(after, bottom, b.start, b.size) == Bytes(before, bottom, b.start, b.size)
  {
    forall b | b in blocks ensures Bytes(after, bottom, b.start, b.size) == Bytes(before, bottom, b.start, b.size) {
      var j :| 0 <= j < |blocks| && blocks[j] == b;
      assert Within(blocks[j], lo, hi);
      AboveUnchanged(after, before, at - bottom, b.start - bottom, b.size);
    }
  }

  /** No main block touches an arena block that is still alive. */
  lemma MainAndArenaApart(heap: Heap, i: nat, j: nat)
    requires heap.Valid() && i < |heap.main| && j < |heap.arena|
    ensures Disjoint(heap.main[i], heap.arena[j])
  {
    assert Within(heap.main[i], heap.bottom, heap.Next()) && Within(heap.arena[j], heap.low, heap.top);
  }

  /** The bytes of memory from an address on. */
  ghost function Bytes(memory: seq<Byte>, bottom: nat, start: nat, n: nat): seq<Byte> {
    if bottom <= start && start + n - bottom <= |memory| then memory[start - bottom..start - bottom + n] else []
  }

  lemma FirstBytes(a: seq<Byte>, b: seq<Byte>, bottom: nat, p: nat, q: nat, size: nat, n: nat)
    requires bottom <= p && p + size - bottom <= |a| && bottom <= q && q + size - bottom <= |b| && n <= size
    requires Bytes(a, bottom, p, size) == Bytes(b, bottom, q, size)
    ensures Bytes(a, bottom, p, n) == Bytes(b, bottom, q, n)
  {
    assert Bytes(a, bottom, p, n) == Bytes(a, bottom, p, size)[..n];
    assert Bytes(b, bottom, q, n) == Bytes(b, bottom, q, size)[..n];
  }

  /** The next multiple of the alignment. */
  function AlignUp(x: nat, a: nat): nat
    requires a > 0
  {
    (x + a - 1) / a * a
  }

  /** `x` and-ed with the complement of `a - 1`, in 64 bits. */
  function Masked(x: nat, a: nat): nat {
    U256.And(x, if a <= U64 then U64 - a else 0)
  }

  /** `x` with its low `k` bits zero. */
  function Clear(x: nat, k: nat): nat {
    if k == 0 then x else 2 * Clear(x / 2, k - 1)
  }

  lemma {:induction false} ClearDrops(x: nat, k: nat)
    ensures Clear(x, k) == x - x % Pow2(k)
    decreases k
  {
    if k > 0 {
      ClearDrops(x / 2, k - 1);
      U256.MaskStep(x, Pow2(k - 1));
    }
  }

  lemma EvenMask(x: nat, m: nat)
    ensures U256.And(x, 2 * m) == 2 * U256.And(x / 2, m)
  {
    assert (2 * m) / 2 == m && (2 * m) % 2 == 0;
  }

  lemma AndAll(x: nat, n: nat)
    requires x < Pow2(n)
    ensures U256.And(x, Pow2(n) - 1) == x
  {
    U256.AndMask(x, n);
    ModSmall(x, Pow2(n));
  }

  /** Masking clears the low bits. */
  lemma {:induction false} MaskClears(x: nat, k: nat, n: nat, m: nat)
    requires k <= n && x < Pow2(n) && m == Pow2(n) - Pow2(k)
    ensures U256.And(x, m) == Clear(x, k)
    decreases n
  {
    if k == 0 {
      AndAll(x, n);
    } else {
      Pow2Monotone(k - 1, n - 1);
      var h := Pow2(n - 1) - Pow2(k - 1);
      MaskClears(x / 2, k - 1, n - 1, h);
      assert m == 2 * h;
      EvenMask(x, h);
    }
  }

  /** The mask keeps exactly the high bits. */
  lemma AndHigh(x: nat, k: nat, n: nat)
    requires k <= n && x < Pow2(n)
    ensures Pow2(k) <= Pow2(n)
    ensures U256.And(x, Pow2(n) - Pow2(k)) == x - x % Pow2(k)
  {
    Pow2Monotone(k, n);
    MaskClears(x, k, n, Pow2(n) - Pow2(k));
    ClearDrops(x, k);
  }

  lemma ModSmall(x: nat, p: nat)
    requires x < p
    ensures x % p == x
  {
  }

  /** Dropping the remainder is rounding down. */
  lemma Floor(y: nat, a: nat)
    requires a > 0
    ensures y - y % a == y / a * a && (y / a * a) % a == 0 && y - a < y / a * a <= y
  {
    Multiple(y / a, a);
    assert y == a * (y / a) + y % a;
  }

  lemma MaskFloors(y: nat, a: nat, k: nat)
    requires y < U64 && k < 64 && a == Pow2(k)
    ensures Masked(y, a) == y / a * a && (y / a * a) % a == 0
  {
    var n := 64;
    Pow2Limb(n);
    AndHigh(y, k, n);
    Floor(y, a);
  }

  /** The mask is rounding up, if the sum does not wrap. */
  lemma MaskAligns(x: nat, a: nat, k: nat)
    requires x < U64 && k < 64 && a == Pow2(k)
    ensures Masked((x + (a - 1)) % U64, a) % a == 0
    ensures x + a <= U64 ==> Masked((x + (a - 1)) % U64, a) == AlignUp(x, a) && x <= AlignUp(x, a) < x + a
  {
    var y := (x + (a - 1)) % U64;
    MaskFloors(y, a, k);
    if x + a <= U64 {
      assert y == x + a - 1;
      Floor(y, a);
    }
  }

  /** The rounding in the code is the mask for sixteen. */
  lemma RoundIsMask(size: nat)
    ensures Masked((size + 15) % U64, 16) == Round16(size)
  {
    var k := 4;
    SixteenTimes(1);
    MaskFloors((size + 15) % U64, 16, k);
  }

  lemma AlignmentKind(a: nat, k: nat)
    requires a == Pow2(k)
    ensures a % 16 == 0 || 16 % a == 0
  {
    if k >= 4 {
      Pow2Add(4, k - 4);
      SixteenTimes(Pow2(k - 4));
    }
  }

  lemma SixteenTimes(x: nat)
    ensures Pow2(4) == 16 && (16 * x) % 16 == 0
  {
  }

  lemma Aligned(x: nat, a: nat)
    requires a > 0 && x % 16 == 0 && (a % 16 == 0 || 16 % a == 0)
    ensures AlignUp(x, a) % 16 == 0
  {
    var q := (x + a - 1) / a;
    if a % 16 == 0 {
      var m := a / 16;
      assert q * a == 16 * (q * m) by { assert a == 16 * m; assert q * (16 * m) == 16 * (q * m); }
    } else {
      AlignSmall(x, a, q);
    }
  }

  lemma AlignedEnd(x: nat, a: nat, k: nat, size: nat, p: nat)
    requires k < 64 && a == Pow2(k) && x % 16 == 0 && x + a + RoundUp(size) < U64
    requires p == Masked((x + (a - 1)) % U64, a)
    ensures x <= p && p % 16 == 0 && p + RoundUp(size) < U64
  {
    MaskAligns(x, a, k);
    AlignmentKind(a, k);
    Aligned(x, a);
  }

  /** A small alignment divides sixteen, so an aligned pointer stays where it is. */
  lemma AlignSmall(x: nat, a: nat, q: nat)
    requires a > 0 && x % 16 == 0 && 16 % a == 0 && q == (x + a - 1) / a
    ensures q * a == x
  {
    var k, m := 16 / a, x / 16;
    assert 16 == a * k;
    assert x == a * (k * m) by { assert x == 16 * m; assert (a * k) * m == a * (k * m); }
    var j := k * m;
    assert x + a - 1 == a * j + (a - 1);
    assert x + a - 1 == a * q + (x + a - 1) % a;
    assert a * (q - j) == (a - 1) - (x + a - 1) % a;
    assert q - j >= 1 ==> a * (q - j) >= a;
    assert q - j <= -1 ==> a * (q - j) <= 0 - a;
  }

  lemma Multiple(q: nat, a: nat)
    requires a > 0
    ensures (q * a) % a == 0
  {
    var r := (q * a) % a;
    var k := (q * a) / a;
    assert q * a == a * k + r;
    assert a * (q - k) == r;
    assert q - k >= 1 ==> a * (q - k) >= a;
    assert q - k <= -1 ==> a * (q - k) <= 0 - a;
  }

  lemma AboveUnchanged(after: seq<Byte>, before: seq<Byte>, at: nat, start: nat, n: nat)
    requires at <= |after| == |before| && after[at..] == before[at..] && at <= start && start + n <= |after|
    ensures after[start..start + n] == before[start..start + n]
  {
    assert after[start..start + n] == after[at..][start - at..start - at + n];
    assert before[start..start + n] == before[at..][start - at..start - at + n];
  }

  lemma BelowUnchanged(after: seq<Byte>, before: seq<Byte>, at: nat, start: nat, n: nat)
    requires at <= |after| == |before| && after[..at] == before[..at] && start + n <= at
    ensures after[start..start + n] == before[start..start + n]
  {
    assert after[start..start + n] == after[..at][start..start + n];
    assert before[start..start + n] == before[..at][start..start + n];
  }
}
