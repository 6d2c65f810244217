/** The mounted file system: the disk blocks, the block allocator and the ownership that ties them
    together, with the small disk primitives of rfs/Inode.c. */
module Storage {
  import opened Bytes
  import opened Ownership
  import opened Linking
  import opened Allocation

  type Disk = seq<seq<Byte>>

  /** A block read as `p` pointer words. */
  function BlockWords(blk: seq<Byte>, p: nat): seq<nat> {
    seq(p, k requires 0 <= k => if 4 * k + 4 <= |blk| then Word32(blk, 4 * k) else 0)
  }

  predicate Formatted(p: nat, disk: Disk) {
    forall b :: 0 <= b < |disk| ==> |disk[b]| == 4 * p
  }

  function WordsOf(p: nat, disk: Disk): Words {
    seq(|disk|, b requires 0 <= b < |disk| => BlockWords(disk[b], p))
  }

  function Zeros(n: nat): seq<Byte> {
    seq(n, _ => 0)
  }

  lemma ZeroWords(p: nat)
    ensures BlockWords(Zeros(4 * p), p) == ZeroRow(p)
  {
  }

  /** The pointer words of a block determine its bytes. */
  lemma WordsInjective(a: seq<Byte>, b: seq<Byte>, p: nat)
    requires |a| == |b| == 4 * p && BlockWords(a, p) == BlockWords(b, p)
    ensures a == b
  {
    forall i | 0 <= i < 4 * p ensures a[i] == b[i] {
      var k := i / 4;
      assert BlockWords(a, p)[k] == BlockWords(b, p)[k];
      Word32Injective(a, b, 4 * k);
      hide Word32;
      assert i == 4 * k || i == 4 * k + 1 || i == 4 * k + 2 || i == 4 * k + 3;
    }
  }

  /** Writing the four bytes of a pointer changes that word and no other. */
  lemma PatchWord(blk: seq<Byte>, p: nat, k: nat, v: nat)
    requires |blk| == 4 * p && k < p && v < TWO32
    ensures BlockWords(Patch(blk, 4 * k, Encode32(v)), p) == BlockWords(blk, p)[k := v]
    ensures Encode32(v) == [v % 256, v / 256 % 256, v / 65536 % 256, v / 16777216]
  {
    CodesAreLittle(v);
    hide Little;
    var blk' := Patch(blk, 4 * k, Encode32(v));
    forall j | 0 <= j < p ensures Word32(blk', 4 * j) == if j == k then v else Word32(blk, 4 * j) {
      assert forall i :: 0 <= i < 4 ==> blk'[4 * j + i] == if j == k then Encode32(v)[i] else blk[4 * j + i];
      assert blk'[4 * j + 0] == blk'[4 * j];
      assert Word32(Encode32(v), 0) == v;
    }
  }

  lemma WordsUpdate(p: nat, disk: Disk, b: nat, blk: seq<Byte>)
    requires Formatted(p, disk) && b < |disk| && |blk| == 4 * p
    ensures Formatted(p, disk[b := blk])
    ensures WordsOf(p, disk[b := blk]) == WordsOf(p, disk)[b := BlockWords(blk, p)]
  {
  }

  /** A block is used exactly when it has an owner. */
  ghost predicate Matches(space: Space, bitmap: seq<seq<bool>>, owner: map<nat, Owner>) {
    forall b :: b in owner <==> space.InRange(b) && !Free(space, bitmap, b)
  }

  /** Both layers of counters agree with the bitmaps, and these with the owners of blocks. */
  ghost predicate Tally(space: Space, bitmap: seq<seq<bool>>, groupFree: seq<nat>,
                        totalFree: nat, owner: map<nat, Owner>) {
    Covers(space, bitmap) && Counted(bitmap, groupFree, totalFree) && Matches(space, bitmap, owner)
  }

  /** The size of the image: block size 1024, 2048 or 4096, at most 4 GiB, and block 0 never free. */
  ghost predicate Geometry(p: nat, space: Space, disk: Disk) {
    && ((p == 256 && |disk| <= 0x40_0000) || (p == 512 && |disk| <= 0x20_0000) || (p == 1024 && |disk| <= 0x10_0000))
    && |disk| == space.first + space.count
    && Formatted(p, disk)
  }

  /** The four bytes of word `k` of a block are `v`, least significant byte first. */
  ghost predicate WordAt(blk: seq<Byte>, k: nat, v: nat) {
    4 * k + 4 <= |blk| && Number(blk[4 * k..4 * k + 4]) == v
  }

  /** The four bytes of word `k` of block `b` were overwritten with `v`, and no others. */
  ghost predicate WordPut(disk: Disk, b: nat, k: nat, v: nat, disk': Disk) {
    && b < |disk| && 4 * k + 4 <= |disk[b]|
    && disk' == disk[b := Patch(disk[b], 4 * k, Little(v, 4))]
  }

  ghost predicate AllZero(blk: seq<Byte>, p: nat) {
    |blk| == 4 * p && forall x :: 0 <= x < 4 * p ==> blk[x] == 0
  }

  class Inode {
    var mode: nat
    var links: nat
    var size: nat
    var block: seq<nat>

    constructor (mode: nat, links: nat, size: nat, block: seq<nat>)
      ensures this.mode == mode && this.links == links && this.size == size && this.block == block
    {
      this.mode, this.links, this.size, this.block := mode, links, size, block;
    }
  }

  class Volume {
    const p: nat
    const blocks: Allocator
    var disk: Disk
    /** Blocks kept by the cache server. */
    var cache: map<nat, seq<Byte>>
    /** Whether the cache server may forget any of them at any time. */
    const forgets: bool
    ghost var owner: map<nat, Owner>

    function Words(): Words
      reads this`disk
    {
      WordsOf(p, disk)
    }

    /** The bitmaps agree with the counters and with the ownership of blocks. */
    ghost predicate Consistent()
      reads this`disk, this`owner, blocks
    {
      && Geometry(p, blocks.space, disk)
      && Tally(blocks.space, blocks.bitmap, blocks.groupFree, blocks.totalFree, owner)
      && (blocks.space.InRange(0) ==> 0 in owner)
    }

    /** Bitmaps, counters, pointers and ownership agree; `files` gives each file's pointers and slots. */
    ghost predicate Sound(files: map<nat, File>)
      reads this`disk, this`owner, blocks
    {
      Consistent() && Good(p, Words(), files, owner)
    }

    constructor (p: nat, blocks: Allocator, disk: Disk, forgets: bool, ghost owner: map<nat, Owner>)
      ensures this.p == p && this.blocks == blocks && this.disk == disk && this.owner == owner && this.cache == map[]
      ensures this.forgets == forgets
    {
      this.p, this.blocks, this.disk, this.cache, this.owner := p, blocks, disk, map[], owner;
      this.forgets := forgets;
    }

    lemma Shape()
      requires Consistent()
      ensures 256 <= p <= 1024 && |Words()| == |disk| < TWO32 && Formatted(p, disk)
      ensures forall b :: 0 <= b < |disk| ==> |Words()[b]| == p
    {
    }

    /** `buscarBloque`, `esCero`: the pointer word at position `k` of block `b`. */
    method ReadWord(b: nat, k: nat) returns (v: nat)
      requires Consistent() && b < |disk| && k < p
      ensures b < |Words()| && k < |Words()[b]| && v == Words()[b][k]
      ensures WordAt(disk[b], k, v)
    {
      WordBytes(disk[b], 4 * k);
      v := Word32(disk[b], 4 * k);
    }

    /** `escribirPtroBloq`, `escribirCero`: overwrites one pointer word. */
    method WriteWord(b: nat, k: nat, v: nat)
      requires Consistent() && b < |disk| && k < p && v < |disk|
      modifies this`disk
      ensures Consistent() && |disk| == |old(disk)|
      ensures b < |old(Words())| && k < |old(Words())[b]| && Words() == PutWord(old(Words()), b, k, v)
      ensures WordPut(old(disk), b, k, v, disk)
    {
      CodesAreLittle(v);
      var blk := Patch(disk[b], 4 * k, Encode32(v));
      PatchWord(disk[b], p, k, v);
      WordsUpdate(p, disk, b, blk);
      disk := disk[b := blk];
    }

    /** `inicializarBloqdePtros`: fills a block with zero bytes. */
    method ZeroBlock(b: nat)
      requires Consistent() && b < |disk|
      modifies this`disk
      ensures Consistent() && |disk| == |old(disk)|
      ensures b < |old(Words())| && Words() == ZeroOne(p, old(Words()), b)
      ensures AllZero(disk[b], p)
    {
      ZeroWords(p);
      WordsUpdate(p, disk, b, Zeros(4 * p));
      disk := disk[b := Zeros(4 * p)];
    }

    /** The numbers of all blocks. */
    ghost function Numbers(): iset<nat> {
      iset b: nat | blocks.space.InRange(b)
    }

    /** Takes the lowest free block, not yet linked into a file (`Grupos_pedirBloqueLibre`). */
    method TakeBlock() returns (b: nat)
      requires Consistent() && blocks.totalFree > 0
      modifies this`owner, blocks
      ensures Consistent() && Widths(blocks.bitmap) == old(Widths(blocks.bitmap))
      ensures 0 < b < |disk| && b !in old(owner) && owner == old(owner)[b := Loose]
      ensures LowestOf(Numbers(), old(owner), b)
      ensures blocks.totalFree == old(blocks.totalFree) - 1
    {
      b := blocks.Take();
      owner := owner[b := Loose];
    }

    /** Gives a used block back (`Grupos_liberarBloqueEnBitmap`). */
    method GiveBlock(b: nat)
      requires Consistent() && b in owner && b != 0
      modifies this`owner, blocks
      ensures Consistent() && Widths(blocks.bitmap) == old(Widths(blocks.bitmap))
      ensures owner == old(owner) - {b}
      ensures blocks.totalFree == old(blocks.totalFree) + 1
    {
      blocks.Release(b);
      owner := owner - {b};
    }

    /** Records who owns the used blocks now. */
    ghost method Adopt(now: map<nat, Owner>)
      requires Consistent() && now.Keys == owner.Keys
      modifies this`owner
      ensures Consistent() && owner == now
    {
      assert forall b :: b in now <==> b in owner;
      owner := now;
    }

    /** A positioned write inside block `b`; writing nothing does nothing, wherever it is. */
    method WriteBytes(b: nat, off: nat, data: seq<Byte>)
      requires Consistent() && (data != [] ==> b < |disk| && off + |data| <= 4 * p)
      modifies this`disk
      ensures Consistent()
      ensures disk == if data == [] then old(disk) else old(disk)[b := Patch(old(disk)[b], off, data)]
    {
      if data != [] {
        disk := disk[b := Patch(disk[b], off, data)];
      }
    }

    /** The cache may forget any blocks at any time, if it is one that forgets. */
    method Forget()
      modifies this`cache
      ensures forall k :: k in cache ==> k in old(cache) && cache[k] == old(cache)[k]
      ensures !forgets ==> cache == old(cache)
    {
      if forgets {
        var forgotten: set<nat> := *;
        cache := cache - forgotten;
      }
    }

    /** Stores a block in the cache, which may forget others. */
    method CachePut(b: nat, blk: seq<Byte>)
      modifies this`cache
      ensures forall k :: k in cache ==>
              (k == b && cache[k] == blk) || (k != b && k in old(cache) && cache[k] == old(cache)[k])
      ensures !forgets ==> cache == old(cache)[b := blk]
    {
      cache := cache[b := blk];
      Forget();
    }

    /** Looks a block up in the cache, which may forget blocks. */
    method CacheGet(b: nat) returns (hit: bool, blk: seq<Byte>)
      modifies this`cache
      ensures forall k :: k in cache ==> k in old(cache) && cache[k] == old(cache)[k]
      ensures hit ==> b in old(cache) && blk == old(cache)[b]
      ensures !forgets ==> cache == old(cache) && (hit <==> b in cache)
    {
      Forget();
      hit := b in cache;
      blk := if hit then cache[b] else [];
    }
  }

  /** What a read of one block length at byte `off` of block `b` leaves in a buffer holding `prev`. */
  function ReadAcross(p: nat, disk: Disk, b: nat, off: nat, prev: seq<Byte>): (blk: seq<Byte>)
    requires Formatted(p, disk) && off < 4 * p && |prev| == 4 * p
    ensures |blk| == 4 * p
    ensures b < |disk| && off == 0 ==> blk == disk[b]
  {
    if b >= |disk| then prev
    else disk[b][off..] + (if b + 1 < |disk| then disk[b + 1][..off] else prev[4 * p - off..])
  }
}
