/** The listing of a directory, from the records in its blocks. */
module Listings {
  import opened Bytes
  import opened DirRecords

  /** Every block of the directory is tiled by records. */
  ghost predicate AllTiled(blocks: seq<seq<Byte>>) {
    forall k :: 0 <= k < |blocks| ==> Tiled(blocks[k], 0)
  }

  function Listing(blocks: seq<seq<Byte>>): seq<Entry> {
    if blocks == [] then [] else Listing(blocks[..|blocks| - 1]) + Entries(blocks[|blocks| - 1], 0)
  }

  lemma ListingAppend(a: seq<seq<Byte>>, blk: seq<Byte>)
    ensures Listing(a + [blk]) == Listing(a) + Entries(blk, 0)
  {
    assert (a + [blk])[..|a|] == a;
  }

  lemma {:induction false} ListingConcat(a: seq<seq<Byte>>, b: seq<seq<Byte>>)
    ensures Listing(a + b) == Listing(a) + Listing(b)
    decreases |b|
  {
    hide Entries, Listing;
    if b == [] {
      EmptyListing();
      assert a + b == a;
    } else {
      var init, last := b[..|b| - 1], b[|b| - 1];
      assert a + b == (a + init) + [last] && b == init + [last];
      ListingConcat(a, init);
      ListingAppend(a + init, last);
      ListingAppend(init, last);
    }
  }

  lemma EmptyListing()
    ensures Listing([]) == []
  {
  }

  lemma ListingOne(blk: seq<Byte>)
    ensures Listing([blk]) == Entries(blk, 0)
  {
    hide Entries;
    assert [blk][..0] == [];
  }

  /** The listing around block `k`. */
  lemma ListingAround(blocks: seq<seq<Byte>>, k: nat, blk: seq<Byte>)
    requires k < |blocks|
    ensures Listing(blocks[k := blk]) == Listing(blocks[..k]) + (Entries(blk, 0) + Listing(blocks[k + 1..]))
  {
    hide Entries, Listing;
    ListingOne(blk);
    ListingConcat([blk], blocks[k + 1..]);
    ListingConcat(blocks[..k], [blk] + blocks[k + 1..]);
    assert blocks[k := blk] == blocks[..k] + ([blk] + blocks[k + 1..]);
  }

  lemma InsertedInside(pre: seq<Entry>, mid: seq<Entry>, mid': seq<Entry>, post: seq<Entry>, e: Entry)
    requires Inserted(mid, mid', e)
    ensures Inserted(pre + (mid + post), pre + (mid' + post), e)
  {
    var k :| InsertedAt(mid, mid', e, k);
    var before := pre + (mid + post);
    assert before[..|pre| + k] == pre + mid[..k] && before[|pre| + k..] == mid[k..] + post;
    assert pre + (mid' + post) == pre + mid[..k] + [e] + (mid[k..] + post);
    assert InsertedAt(before, pre + (mid' + post), e, |pre| + k);
  }

  /** The first entry with this inode. */
  lemma {:induction false} FirstWith(list: seq<Entry>, inode: nat) returns (k: nat)
    requires !NoInode(list, inode)
    ensures k < |list| && list[k].inode == inode && NoInode(list[..k], inode)
  {
    k := 0;
    if list[0].inode != inode {
      k := FirstWith(list[1..], inode);
      assert list[..k + 1] == [list[0]] + list[1..][..k];
      k := k + 1;
    }
  }

  lemma WithoutInside(pre: seq<Entry>, mid: seq<Entry>, post: seq<Entry>, inode: nat)
    requires NoInode(pre, inode) && !NoInode(mid, inode)
    ensures WithoutFirst(pre + (mid + post), inode) == pre + (WithoutFirst(mid, inode) + post)
  {
    hide WithoutFirst, NoInode;
    var k := FirstWith(mid, inode);
    var m, e, m' := mid[..k], mid[k], mid[k + 1..];
    assert mid == m + ([e] + m');
    NoInodeBoth(pre, m, inode);
    WithoutFirstAt(m, e, m');
    WithoutFirstAt(pre + m, e, m' + post);
    AroundTaken(pre, m, e, m', post);
  }

  lemma NoInodeBoth(a: seq<Entry>, b: seq<Entry>, inode: nat)
    requires NoInode(a, inode) && NoInode(b, inode)
    ensures NoInode(a + b, inode)
  {
  }

  lemma AroundTaken<T>(pre: seq<T>, m: seq<T>, e: T, m': seq<T>, post: seq<T>)
    ensures pre + ((m + ([e] + m')) + post) == (pre + m) + ([e] + (m' + post))
    ensures (pre + m) + (m' + post) == pre + ((m + m') + post)
  {
  }

  /** Changing one block so that it lists one entry more changes the listing in the same way. */
  lemma ListingInserted(blocks: seq<seq<Byte>>, k: nat, blk: seq<Byte>, e: Entry)
    requires k < |blocks| && Inserted(Entries(blocks[k], 0), Entries(blk, 0), e)
    ensures Inserted(Listing(blocks), Listing(blocks[k := blk]), e)
  {
    hide Entries, Listing, Inserted;
    assert blocks[k := blocks[k]] == blocks;
    ListingAround(blocks, k, blocks[k]);
    ListingAround(blocks, k, blk);
    InsertedInside(Listing(blocks[..k]), Entries(blocks[k], 0), Entries(blk, 0), Listing(blocks[k + 1..]), e);
  }

  /** Taking the first entry with an inode out of the first block that has it takes it out of the listing. */
  lemma ListingRemoved(blocks: seq<seq<Byte>>, k: nat, blk: seq<Byte>, inode: nat)
    requires k < |blocks| && NoInode(Listing(blocks[..k]), inode) && !NoInode(Entries(blocks[k], 0), inode)
    requires Entries(blk, 0) == WithoutFirst(Entries(blocks[k], 0), inode)
    ensures Listing(blocks[k := blk]) == WithoutFirst(Listing(blocks), inode)
  {
    hide Entries, Listing, WithoutFirst, NoInode;
    assert blocks[k := blocks[k]] == blocks;
    ListingAround(blocks, k, blocks[k]);
    ListingAround(blocks, k, blk);
    WithoutInside(Listing(blocks[..k]), Entries(blocks[k], 0), Listing(blocks[k + 1..]), inode);
  }

  /** A block with a single record at the end adds its entry at the end of the listing. */
  lemma ListingExtended(blocks: seq<seq<Byte>>, blk: seq<Byte>, e: Entry)
    requires Entries(blk, 0) == [e]
    ensures Inserted(Listing(blocks), Listing(blocks + [blk]), e)
  {
    hide Entries, Listing;
    ListingConcat(blocks, [blk]);
    ListingOne(blk);
    var l := Listing(blocks);
    assert InsertedAt(l, l + [e], e, |l|) by {
      assert l[..|l|] == l && l[|l|..] == [] && l + [e] == l + [e] + [];
    }
  }
}
