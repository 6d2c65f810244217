/** The inode table and the directory tree that it holds, on values. */
module FileTable {
  import opened Arithmetic
  import opened Bytes
  import opened BlockTree
  import opened Ownership
  import opened Allocation
  import opened Storage
  import opened InodeOps
  import opened Truncation
  import opened FileContents
  import opened FileIO
  import opened DirRecords
  import opened Listings
  import opened Directory
  import opened Paths
  import opened DirTree

  /** An inode as stored in the inode table. */
  datatype Record = Record(mode: nat, links: nat, size: nat, block: seq<nat>)

  type Table = map<nat, Record>

  predicate IsDirMode(mode: nat) {
    mode / 0x1000 == 4
  }

  ghost function FilesOf(p: nat, table: Table): map<nat, File>
    requires p > 0
  {
    map i | i in table :: File(table[i].block, LiveSlots(p, BlockCount(p, table[i].size)))
  }

  /** The data blocks of a file, in order. */
  function BlocksOf(p: nat, disk: Disk, r: Record): seq<seq<Byte>>
    requires p > 0
  {
    Content(p, disk, r.block, BlockCount(p, r.size))
  }

  function BytesOf(p: nat, disk: Disk, r: Record): seq<int>
    requires p > 0
  {
    FileBytes(p, disk, r.block, r.size)
  }

  /** The listings of the directories. */
  function DirsOf(p: nat, disk: Disk, table: Table, used: set<nat>): Dirs
    requires p > 0
  {
    map i | i in used && i in table && IsDirMode(table[i].mode) :: Listing(BlocksOf(p, disk, table[i]))
  }

  /** There is one record for each inode number. */
  ghost predicate Numbered(space: Space, numbers: set<nat>) {
    space.first == 1 && forall i {:trigger i in numbers} :: i in numbers <==> space.InRange(i)
  }

  ghost predicate Tabled(p: nat, disk: Disk, table: Table, used: set<nat>)
    requires p > 0
  {
    && used <= table.Keys
    && (forall i :: i in table ==> 0 < i < TWO32 && table[i].size < TWO32)
    && (forall i :: i in table && i !in used ==> table[i].size == 0)
    && (forall i :: i in used && IsDirMode(table[i].mode) ==> IsDirectory(p, disk, table[i].block, table[i].size))
  }

  /** The table is well formed and its directories form a tree. */
  ghost predicate Sane(p: nat, disk: Disk, table: Table, used: set<nat>, place: map<nat, Place>)
    requires p > 0
  {
    Tabled(p, disk, table, used) && TreeOk(DirsOf(p, disk, table, used), used, place)
  }

  /** Every file but `ino` has the same record and the same blocks. */
  ghost predicate Elsewhere(p: nat, disk: Disk, table: Table, disk': Disk, table': Table, ino: nat)
    requires p > 0
  {
    && table'.Keys == table.Keys
    && forall j :: j in table && j != ino ==>
      table'[j] == table[j] && BlocksOf(p, disk', table[j]) == BlocksOf(p, disk, table[j])
  }

  /** What an operation on one file's blocks leaves alone, in terms of the table. */
  lemma ElsewhereSame(p: nat, disk: Disk, table: Table, disk': Disk, ino: nat, r: Record)
    requires (p == 256 || p == 512 || p == 1024) && ino in table && forall i :: i in table ==> table[i].size < TWO32
    requires OthersSame(p, FilesOf(p, table), ino, disk, disk')
    ensures Elsewhere(p, disk, table, disk', table[ino := r], ino)
  {
    hide Content, BlockCount, LiveSlots, MaxBlocks;
    forall j | j in table && j != ino ensures BlocksOf(p, disk', table[j]) == BlocksOf(p, disk, table[j]) {
      BlockReach(p, table[j].size);
      assert FilesOf(p, table)[j] == File(table[j].block, LiveSlots(p, BlockCount(p, table[j].size)));
    }
  }

  /** Changing the record of one file changes its pointers and its blocks in use, and no others. */
  lemma FilesSaved(p: nat, table: Table, ino: nat, r: Record)
    requires p > 0 && ino in table
    ensures FilesOf(p, table[ino := r]) == FilesOf(p, table)[ino := File(r.block, LiveSlots(p, BlockCount(p, r.size)))]
  {
    hide LiveSlots, BlockCount;
  }

  lemma FilesEntry(p: nat, table: Table, ino: nat)
    requires p > 0 && ino in table
    ensures ino in FilesOf(p, table)
    ensures FilesOf(p, table)[ino] == File(table[ino].block, LiveSlots(p, BlockCount(p, table[ino].size)))
  {
  }

  /** Resizing or writing a file that is not a directory leaves the tree as it is. */
  lemma SaneFile(p: nat, disk: Disk, table: Table, used: set<nat>,
                 place: map<nat, Place>, disk': Disk, ino: nat, r: Record)
    requires p > 0 && Sane(p, disk, table, used, place) && ino in used && r.size < TWO32
    requires Elsewhere(p, disk, table, disk', table[ino := r], ino)
    requires !IsDirMode(table[ino].mode) && r.mode == table[ino].mode
    ensures Sane(p, disk', table[ino := r], used, place)
    ensures DirsOf(p, disk', table[ino := r], used) == DirsOf(p, disk, table, used)
  {
    hide Content, BlockCount, TreeOk, Listing, AllTiled, Rem;
    assert forall i :: i in used && IsDirMode(table[ino := r][i].mode) ==>
      i != ino && BlocksOf(p, disk', table[i]) == BlocksOf(p, disk, table[i]);
    assert DirsOf(p, disk', table[ino := r], used) == DirsOf(p, disk, table, used);
  }

  /** A directory has changed its listing to `list`. */
  lemma DirsChanged(p: nat, disk: Disk, table: Table, used: set<nat>, disk': Disk, d: nat, r: Record)
    requires p > 0 && Tabled(p, disk, table, used) && d in used && IsDirMode(table[d].mode) && r.mode == table[d].mode
    requires r.size < TWO32
    requires Elsewhere(p, disk, table, disk', table[d := r], d) && IsDirectory(p, disk', r.block, r.size)
    ensures Tabled(p, disk', table[d := r], used)
    ensures DirsOf(p, disk', table[d := r], used) ==
            DirsOf(p, disk, table, used)[d := ListingOf(p, disk', r.block, r.size)]
  {
    hide Content, BlockCount, Listing, AllTiled, Rem;
    assert forall i :: i in used && i != d ==> BlocksOf(p, disk', table[i]) == BlocksOf(p, disk, table[i]);
  }

  /** Changing mode and links of an inode that is not in use changes no listing. */
  lemma RecordOfUnused(p: nat, disk: Disk, table: Table, used: set<nat>, i: nat, mode: nat, links: nat)
    requires p > 0 && Tabled(p, disk, table, used) && i in table && i !in used
    ensures var table' := table[i := Record(mode, links, table[i].size, table[i].block)];
            && Tabled(p, disk, table', used) && DirsOf(p, disk, table', used) == DirsOf(p, disk, table, used)
            && FilesOf(p, table') == FilesOf(p, table) && Elsewhere(p, disk, table, disk, table', i)
  {
    hide Content, BlockCount, Listing, AllTiled, Rem, LiveSlots;
  }

  /** Changing the links of a directory changes no listing. */
  lemma LinksChanged(p: nat, disk: Disk, table: Table, used: set<nat>, i: nat, links: nat)
    requires p > 0 && Tabled(p, disk, table, used) && i in table
    ensures var table' := table[i := Record(table[i].mode, links, table[i].size, table[i].block)];
            && Tabled(p, disk, table', used) && DirsOf(p, disk, table', used) == DirsOf(p, disk, table, used)
            && FilesOf(p, table') == FilesOf(p, table) && Elsewhere(p, disk, table, disk, table', i)
  {
    hide Content, BlockCount, Listing, AllTiled, Rem, LiveSlots;
  }

  /** An inode that is not a directory becomes used. */
  lemma FileUsed(p: nat, disk: Disk, table: Table, used: set<nat>, i: nat)
    requires p > 0 && Tabled(p, disk, table, used) && i in table && !IsDirMode(table[i].mode)
    ensures Tabled(p, disk, table, used + {i}) && DirsOf(p, disk, table, used + {i}) == DirsOf(p, disk, table, used)
  {
    hide Content, BlockCount, Listing, AllTiled, Rem;
  }

  /** A new directory becomes used. */
  lemma DirUsed(p: nat, disk: Disk, table: Table, used: set<nat>, i: nat)
    requires p > 0 && Tabled(p, disk, table, used) && i in table && i !in used
    requires IsDirMode(table[i].mode) && IsDirectory(p, disk, table[i].block, table[i].size)
    ensures Tabled(p, disk, table, used + {i})
    ensures DirsOf(p, disk, table, used + {i}) ==
            DirsOf(p, disk, table, used)[i := ListingOf(p, disk, table[i].block, table[i].size)]
  {
    hide Content, BlockCount, Listing, AllTiled, Rem;
  }

  /** An inode whose file was cut to nothing is given back. */
  lemma Unused(p: nat, disk: Disk, table: Table, used: set<nat>, disk': Disk, i: nat, r: Record)
    requires p > 0 && Tabled(p, disk, table, used) && i in used && r.size == 0
    requires Elsewhere(p, disk, table, disk', table[i := r], i)
    ensures Tabled(p, disk', table[i := r], used - {i})
    ensures DirsOf(p, disk', table[i := r], used - {i}) == DirsOf(p, disk, table, used) - {i}
  {
    hide Content, BlockCount, Listing, AllTiled, Rem;
    assert forall j :: j in used && j != i ==> BlocksOf(p, disk', table[j]) == BlocksOf(p, disk, table[j]);
  }

  /** There is room for the entry: in a record of the directory, or in the volume for one block more;
      and `more` blocks beside that. */
  predicate Room(p: nat, disk: Disk, r: Record, totalFree: nat, name: Name, more: nat)
    requires p > 0
  {
    && r.size + 4 * p < TWO32 && totalFree >= more
    && (MustGrow(p, disk, r.block, r.size, name) ==> totalFree >= |NewSlots(p, BlockCount(p, r.size))| + more)
  }

  /** The directory `r` has become `r'` by adding an entry. */
  ghost predicate Added(p: nat, disk: Disk, r: Record, disk': Disk, r': Record, name: Name, target: nat)
    requires p > 0
  {
    && r'.mode == r.mode && r'.links == r.links && r'.size < TWO32 && IsDirectory(p, disk', r'.block, r'.size)
    && Inserted(Listing(BlocksOf(p, disk, r)), Listing(BlocksOf(p, disk', r')), Entry(ShortName(name), target))
    && EntryPut(BlocksOf(p, disk, r), BlocksOf(p, disk', r'), name, target)
    && r'.size == r.size + (if HasPlace(BlocksOf(p, disk, r), |name| % 256) then 0 else 4 * p)
    && if MustGrow(p, disk, r.block, r.size, name)
       then Appended(BlocksOf(p, disk, r), BlocksOf(p, disk', r'), name, target) && r'.size == r.size + 4 * p
       else SplitOff(BlocksOf(p, disk, r), BlocksOf(p, disk', r'), name, target) && r'.size == r.size
  }

  method AddEntryTo(vol: Volume, inode: Inode, name: Name, target: nat, ghost more: nat, ghost ino: nat,
                    ghost files: map<nat, File>)
    requires vol.p > 0 && 0 < target < TWO32 && inode.mode != 0
    requires Holds(vol, inode, ino, files, BlockCount(vol.p, inode.size))
    requires IsDirectory(vol.p, vol.disk, inode.block, inode.size)
    requires Room(vol.p, vol.disk, Record(inode.mode, inode.links, inode.size, inode.block),
                  vol.blocks.totalFree, name, more)
    modifies vol`disk, vol`owner, vol.blocks, inode`block, inode`size
    ensures var n := BlockCount(vol.p, inode.size);
            Holds(vol, inode, ino, files[ino := File(inode.block, LiveSlots(vol.p, n))], n)
    ensures OthersSame(vol.p, files, ino, old(vol.disk), vol.disk) && SameMeta(old(vol.owner), vol.owner)
    ensures DataKept(old(vol.owner), old(vol.disk), vol.owner, vol.disk, {ino})
    ensures Added(vol.p, old(vol.disk), old(Record(inode.mode, inode.links, inode.size, inode.block)),
                  vol.disk, Record(inode.mode, inode.links, inode.size, inode.block), name, target)
    ensures vol.blocks.totalFree >= more
  {
    hide Holds, IsDirectory, Inserted, MustGrow, Appended, SplitOff, EntryPut, HasPlace, Content, Listing, BlockCount,
         NewSlots, OthersSame, LiveSlots, Widths, ShortName, SameMeta, DataKept;
    var r := AddEntry(vol, inode, name, target, ino, files);
  }

  /** The files outside `touched` have the same record and the same blocks. */
  ghost predicate Untouched(p: nat, disk: Disk, table: Table, disk': Disk, table': Table, touched: set<nat>)
    requires p > 0
  {
    && table'.Keys == table.Keys
    && forall j :: j in table && j !in touched ==>
      table'[j] == table[j] && BlocksOf(p, disk', table[j]) == BlocksOf(p, disk, table[j])
  }

  lemma UntouchedOne(p: nat, disk: Disk, table: Table, disk': Disk, table': Table, ino: nat)
    requires p > 0 && Elsewhere(p, disk, table, disk', table', ino)
    ensures Untouched(p, disk, table, disk', table', {ino})
  {
    hide BlocksOf;
  }

  lemma UntouchedMore(p: nat, disk: Disk, table: Table, disk1: Disk, table1: Table,
                      touched: set<nat>, disk2: Disk, table2: Table, ino: nat)
    requires p > 0 && Untouched(p, disk, table, disk1, table1, touched)
    requires Elsewhere(p, disk1, table1, disk2, table2, ino)
    ensures Untouched(p, disk, table, disk2, table2, touched + {ino})
  {
    hide BlocksOf;
  }
}
