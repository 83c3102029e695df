/** The bitmap heap of libc/heap.c: blocks of equal slots, one id byte per slot. */
module Heap {
  import opened Words
  import opened HeapRuns
  import opened Products

  const HEADER: nat := 40    // sizeof(KHEAPBLOCKBM)

  /** a / b rounded up, as the source computes it. */
  function CeilDiv(a: nat, b: nat): nat
    requires b > 0
  {
    if a / b * b < a then a / b + 1 else a / b
  }

  lemma AtLeast(q: nat, b: nat)
    requires b > 0
    ensures q <= q * b && (q + 1) * b == q * b + b
  {
    assert q * b == q + q * (b - 1);
    assert q * (b - 1) >= 0;
  }

  /** `CeilDiv` slots hold `a` bytes, and are no more than `a`. */
  lemma CeilDivEnough(a: nat, b: nat)
    requires b > 0
    ensures CeilDiv(a, b) * b >= a && CeilDiv(a, b) <= a && (a > 0 <==> CeilDiv(a, b) > 0)
  {
    RowOf(a, b);
    AtLeast(a / b, b);
  }

  /** k_heapBMGetNID: an id unlike both neighbours and unlike 0. */
  method NextId(a: byte, b: byte) returns (c: byte)
    ensures c != 0 && c != a && c != b
  {
    c := (a + 1) % 256;
    var k := 0;
    while c == b || c == 0
      invariant 0 <= k <= 2 && c == (a + 1 + k) % 256
      invariant k == 1 ==> (a + 1) % 256 == b || (a + 1) % 256 == 0
      invariant k == 2 ==> {(a + 1) % 256, (a + 2) % 256} == {0, b}
      decreases 2 - k
    {
      c := (c + 1) % 256;
      k := k + 1;
    }
  }

  class Block {
    const addr: nat            // of the header; slot 0 starts HEADER bytes on
    const size: nat            // bytes after the header
    const bsize: nat           // bytes per slot
    var used: nat              // slots in use
    var lfb: int
    const bm: array<byte>

    ghost predicate Valid()
      reads this, bm
      ensures Valid() ==> bsize > 0
    {
      bsize > 0 && bm.Length == size / bsize && bm.Length < TWO64 && used == Used(bm[..])
    }

    function Base(): nat { addr + HEADER }

    /** The address of slot `x`. */
    function SlotPtr(x: nat): (p: nat)
      ensures p > 0
    {
      ProductSign(x, bsize);
      Base() + x * bsize
    }

    /** k_heapBMAddBlock: everything free except the slots the bitmap itself lies in, which form one run. */
    constructor (addr: nat, total: nat, bsize: nat)
      requires HEADER <= total < TWO64 && bsize > 0
      ensures Valid() && this.addr == addr && this.size == total - HEADER && this.bsize == bsize && fresh(bm)
      ensures var bcnt, own := this.size / bsize, CeilDiv(this.size / bsize, bsize);
              && own <= bcnt <= own * bsize && (forall i :: 0 <= i < bcnt ==> bm[i] == if i < own then 5 else 0)
    {
      this.addr, this.size, this.bsize := addr, total - HEADER, bsize;
      var bcnt := (total - HEADER) / bsize;
      var own := CeilDiv(bcnt, bsize);
      CeilDivEnough(bcnt, bsize);
      CeilDivEnough(total - HEADER, bsize);
      var ids := new byte[bcnt](i => if i < own then 5 else 0);
      bm, used := ids, own;
      lfb := own as int - 1;
      new;
      FirstRunUsed(bm[..], own);
    }

    /** One block's turn in k_heapBMAlloc: the first free run long enough is painted with a fresh id; -1 exactly when
        there is none. A request for nothing reserves nothing: it gets the first free slot, or, reading on into the byte
        behind the bitmap, `edge`, the end of the slots if that is 0. */
    method TryAlloc(size: nat, edge: byte) returns (x: int)
      requires Valid()
      modifies this, bm
      ensures Valid()
      ensures size > 0 ==> (x == -1 <==> !HasRoom(old(bm[..]), CeilDiv(size, bsize)))
      ensures x == -1 || size == 0 ==> bm[..] == old(bm[..]) && used == old(used)
      ensures size > 0 && x != -1 ==>
        && 0 <= x && OneMoreRun(old(bm[..]), bm[..], x, CeilDiv(size, bsize))
        && (forall a: nat :: a < x ==> !FreeAt(old(bm[..]), a, CeilDiv(size, bsize)))
        && used == old(used) + CeilDiv(size, bsize)
      ensures size == 0 ==> NextFree(old(bm[..]), edge, x)
    {
      var bcnt := bm.Length;
      var need := CeilDiv(size, bsize);
      CeilDivEnough(size, bsize);
      if this.size - used * bsize < size {
        GuardIsRight(bm[..], this.size, bsize, size);
        return -1;
      }
      x := FindFree(need, edge);
      if x == -1 {
        return;
      }
      if need == 0 {
        lfb := x - 1;
        return;
      }
      var prev: byte := if x > 0 then bm[x - 1] else 0;
      var next: byte := if x + need < bcnt then bm[x + need] else 0;
      var id := NextId(prev, next);
      ghost var was := bm[..];
      Paint(x, need, id);
      UsedPaint(was, x, need, id);
      assert Fresh(was, x, need, id);
      lfb := x + need - 1;
      used := used + need;
    }

    /** The scan with its skip past runs that are too short. */
    method FindFree(need: nat, edge: byte) returns (x: int)
      ensures need > 0 && x == -1 ==> !HasRoom(bm[..], need)
      ensures need > 0 && x != -1 ==>
        0 <= x && FreeAt(bm[..], x, need) && forall a: nat :: a < x ==> !FreeAt(bm[..], a, need)
      ensures need == 0 ==> NextFree(bm[..], edge, x)
    {
      x := 0;
      while x + need <= bm.Length
        invariant 0 <= x && (need > 0 ==> forall a: nat :: a < x ==> !FreeAt(bm[..], a, need))
        invariant need == 0 ==>
          x <= bm.Length + 1 && (forall a: nat :: a < x && a < bm.Length ==> bm[a] != 0)
            && (x > bm.Length ==> edge != 0)
      {
        var id := if x < bm.Length then bm[x] else edge;
        if id == 0 {
          var y := 0;
          while y < need && bm[x + y] == 0
            invariant 0 <= y <= need && forall i :: x <= i < x + y ==> bm[i] == 0
          {
            y := y + 1;
          }
          if y == need {
            return;
          }
          TooShort(bm[..], x, y, need);
          x := x + y;
        }
        x := x + 1;
      }
      x := -1;
    }

    method Paint(x: nat, n: nat, id: byte)
      requires x + n <= bm.Length
      modifies bm
      ensures bm[..] == Painted(old(bm[..]), x, n, id)
    {
      for z := 0 to n
        invariant forall i :: 0 <= i < bm.Length ==> bm[i] == if x <= i < x + z then id else old(bm[i])
      {
        bm[x + z] := id;
      }
    }

    /** k_heapBMFree from slot `bi` on: the slots with its id are cleared up to the first with another, which is exactly
        one run if `bi` starts one. The count drops by as many; on a slot that is free already it thereby goes wrong. */
    method FreeRun(bi: nat) returns (ghost n: nat)
      requires Valid() && bi < bm.Length
      modifies this, bm
      ensures Stretch(old(bm[..]), bi, n) && bm[..] == Painted(old(bm[..]), bi, n, 0)
      ensures used == (old(used) - n) % TWO64 && (Valid() <==> old(bm[bi]) != 0)
    {
      hide Used, Painted;
      ghost var was := bm[..];
      UsedBound(was);
      var x := ClearFrom(bi);
      n := x - bi;
      used := (used - (x - bi)) % TWO64;
      if was[bi] != 0 {
        UsedClear(was, bi, n);
      } else {
        assert bm[..] == was;
      }
    }

    /** The clearing loop: stops at the first slot with another id. */
    method ClearFrom(bi: nat) returns (x: nat)
      requires bi < bm.Length
      modifies bm
      ensures bi < x && Stretch(old(bm[..]), bi, x - bi) && bm[..] == Painted(old(bm[..]), bi, x - bi, 0)
    {
      ghost var was := bm[..];
      var id := bm[bi];
      x := bi;
      while x < bm.Length && bm[x] == id
        invariant bi <= x <= bm.Length && (x == bi ==> bm[bi] == id)
        invariant forall i :: bi <= i < x ==> was[i] == id
        invariant forall i :: 0 <= i < bm.Length ==> bm[i] == if bi <= i < x then 0 else was[i]
      {
        bm[x] := 0;
        x := x + 1;
      }
    }
  }

  lemma UsedBound(bm: seq<byte>)
    ensures Used(bm) <= |bm|
  {
  }

  /** The first free slot, the end of the slots if there is none and `edge` is 0, and -1 if there is neither. */
  ghost predicate NextFree(bm: seq<byte>, edge: byte, x: int) {
    && (x == -1 <==> edge != 0 && forall a :: 0 <= a < |bm| ==> bm[a] != 0)
    && (x != -1 ==>
         0 <= x <= |bm| && (forall a :: 0 <= a < x ==> bm[a] != 0) && (if x < |bm| then bm[x] == 0 else edge == 0))
  }

  /** A block with no place for a request of `size` bytes. */
  ghost predicate Refuses(bm: seq<byte>, bsize: nat, edge: byte, size: nat)
    requires bsize > 0
  {
    if size > 0 then !HasRoom(bm, CeilDiv(size, bsize)) else NextFree(bm, edge, -1)
  }

  lemma FirstRunUsed(bm: seq<byte>, own: nat)
    requires own <= |bm| && forall i :: 0 <= i < |bm| ==> bm[i] == if i < own then 5 else 0
    ensures Used(bm) == own
  {
    hide Used;
    UsedSplit(bm, 0, own);
    assert bm[..0] == [] && bm[0..own] == bm[..own];
    UsedUniform(bm[..0]);
    UsedUniform(bm[0..own]);
    UsedUniform(bm[own..]);
  }

  /** The used-space guard refuses only when no free run is long enough. */
  lemma GuardIsRight(bm: seq<byte>, total: nat, bsize: nat, size: nat)
    requires bsize > 0 && |bm| == total / bsize && total - Used(bm) * bsize < size
    ensures size > 0 && forall a: nat :: !FreeAt(bm, a, CeilDiv(size, bsize))
  {
    RoomIsEnough(|bm|, Used(bm), 0, bsize, total);
    var need := CeilDiv(size, bsize);
    CeilDivEnough(size, bsize);
    forall a: nat ensures !FreeAt(bm, a, need) {
      if FreeAt(bm, a, need) {
        UsedPaint(bm, a, need, 1);
        RoomIsEnough(|bm|, Used(bm), need, bsize, total);
      }
    }
  }

  lemma RoomIsEnough(n: nat, used: nat, need: nat, bsize: nat, total: nat)
    requires bsize > 0 && used + need <= n == total / bsize
    ensures total - used * bsize >= need * bsize
  {
    RowOf(total, bsize);
    ProductSign(n - used - need, bsize);
    assert n * bsize == used * bsize + need * bsize + (n - used - need) * bsize;
  }

  lemma TooShort(bm: seq<byte>, x: nat, y: nat, need: nat)
    requires y < need && x + need <= |bm| && bm[x + y] != 0
    requires forall a: nat :: a < x ==> !FreeAt(bm, a, need)
    ensures forall a: nat :: a < x + y + 1 ==> !FreeAt(bm, a, need)
  {
    forall a: nat | a < x + y + 1 ensures !FreeAt(bm, a, need) {
      if a >= x && a + need <= |bm| {
        assert a <= x + y < a + need;
      }
    }
  }

  /** The list of blocks, most recently added first. */
  class HeapBM {
    var blocks: seq<Block>

    ghost predicate Valid()
      reads this, blocks, set b | b in blocks :: b.bm
    {
      && (forall i :: 0 <= i < |blocks| ==> blocks[i].Valid())
      && (forall i, j :: 0 <= i < j < |blocks| ==>
         blocks[i] != blocks[j] && blocks[i].bm != blocks[j].bm && Apart(blocks[i], blocks[j]))
    }

    static ghost predicate Apart(a: Block, b: Block) {
      a.addr + HEADER + a.size <= b.addr || b.addr + HEADER + b.size <= a.addr
    }

    ghost predicate SameMaps(maps: seq<seq<byte>>, but: int)
      reads this, blocks, set b | b in blocks :: b.bm
    {
      |maps| == |blocks| && forall j :: 0 <= j < |blocks| && j != but ==> blocks[j].bm[..] == maps[j]
    }

    ghost function Maps(): seq<seq<byte>>
      reads this, blocks, set b | b in blocks :: b.bm
    {
      seq(|blocks|, j requires 0 <= j < |blocks| reads this, blocks, set b | b in blocks :: b.bm => blocks[j].bm[..])
    }

    constructor ()
      ensures Valid() && blocks == []
    {
      blocks := [];
    }

    /** k_heapBMAddBlock puts the new block in front. */
    method AddBlock(addr: nat, total: nat, bsize: nat)
      requires Valid() && HEADER <= total < TWO64 && bsize > 0
      requires forall i :: 0 <= i < |blocks| ==>
        addr + total <= blocks[i].addr || blocks[i].addr + HEADER + blocks[i].size <= addr
      modifies this
      ensures Valid() && |blocks| == |old(blocks)| + 1 && blocks[1..] == old(blocks) && fresh(blocks[0])
      ensures fresh(blocks[0].bm)
      ensures blocks[0].addr == addr && blocks[0].size == total - HEADER && blocks[0].bsize == bsize
      ensures var own := CeilDiv(blocks[0].bm.Length, bsize);
              forall i :: 0 <= i < blocks[0].bm.Length ==> blocks[0].bm[i] == if i < own then 5 else 0
    {
      hide Used, CeilDiv;
      var b := new Block(addr, total, bsize);
      blocks := [b] + blocks;
      assert blocks[1..] == old(blocks);
    }

    /** k_heapBMAlloc: 0 exactly when no block has a long enough free run; otherwise the first block that has one is
        used, at its first fit. A request for nothing changes nothing, and points at a free slot or the end of a block;
        `edges` are the bytes behind the bitmaps, which only such a request reads. */
    method Alloc(size: nat, edges: seq<byte>) returns (p: nat, ghost i: nat, ghost x: nat)
      requires Valid() && |edges| == |blocks|
      modifies blocks, set b | b in blocks :: b.bm
      ensures Valid() && blocks == old(blocks) && i <= |blocks| && (p == 0 <==> i == |blocks|)
      ensures forall j :: 0 <= j < i ==> Refuses(old(Maps())[j], blocks[j].bsize, edges[j], size)
      ensures p == 0 || size == 0 ==> SameMaps(old(Maps()), -1)
      ensures p != 0 ==> p == blocks[i].SlotPtr(x)
      ensures p != 0 && size > 0 ==>
        && SameMaps(old(Maps()), i) && OneMoreRun(old(Maps())[i], blocks[i].bm[..], x, CeilDiv(size, blocks[i].bsize))
        && forall a: nat :: a < x ==> !FreeAt(old(Maps())[i], a, CeilDiv(size, blocks[i].bsize))
      ensures p != 0 && size == 0 ==> NextFree(old(Maps())[i], edges[i], x)
    {
      hide Used, HasRoom, OneMoreRun, FreeAt, CeilDiv, Apart, Block.SlotPtr, Block.Valid, NextFree;
      ghost var maps := Maps();
      i, x := |blocks|, 0;
      for k := 0 to |blocks|
        invariant Valid() && SameMaps(maps, -1)
        invariant forall j :: 0 <= j < k ==> Refuses(maps[j], blocks[j].bsize, edges[j], size)
      {
        var b := blocks[k];
        var slot := b.TryAlloc(size, edges[k]);
        if slot == -1 {
          assert Refuses(maps[k], b.bsize, edges[k], size);
        } else {
          i, x := k, slot;
          p := b.SlotPtr(slot);
          return;
        }
      }
      p := 0;
    }

    /** k_heapBMFree of a pointer into a slot in use: the block is found by address, and the slots from there on with
        the same id are cleared, the whole run if `ptr` is where it starts. */
    method Free(ptr: nat, ghost i: nat, ghost bi: nat) returns (ghost n: nat)
      requires Valid() && i < |blocks| && bi < blocks[i].bm.Length && blocks[i].bm[bi] != 0
      requires blocks[i].SlotPtr(bi) <= ptr < blocks[i].SlotPtr(bi) + blocks[i].bsize
      modifies blocks, set b | b in blocks :: b.bm
      ensures Valid() && blocks == old(blocks) && SameMaps(old(Maps()), i)
      ensures Stretch(old(Maps())[i], bi, n) && blocks[i].bm[..] == Painted(old(Maps())[i], bi, n, 0)
    {
      hide Painted, Used, Stretch, Block.SlotPtr;
      n := 1;
      InSlot(blocks[i], bi, ptr);
      for k := 0 to |blocks|
        invariant Valid() && SameMaps(old(Maps()), -1) && k <= i
      {
        var b := blocks[k];
        if b.addr < ptr < b.addr + HEADER + b.size {
          assert k == i;
          n := b.FreeRun((ptr - b.Base()) / b.bsize);
          return;
        }
      }
    }
  }

  lemma InSlot(b: Block, bi: nat, ptr: nat)
    requires b.bsize > 0 && bi < b.size / b.bsize && b.SlotPtr(bi) <= ptr < b.SlotPtr(bi) + b.bsize
    ensures b.addr < ptr < b.addr + HEADER + b.size && b.Base() <= ptr && (ptr - b.Base()) / b.bsize == bi
  {
    RowOf(b.size, b.bsize);
    RowOrder(bi, b.size / b.bsize, b.bsize);
    RowIndex(bi, ptr - b.SlotPtr(bi), b.bsize);
  }
}
