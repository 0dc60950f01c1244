/** One step of the squashfs writer after the other: what a walked part of the tree has added to the
    layout, and what the finished image shows. */
module SquashSteps {
  import opened Options
  import opened SquashBytes
  import opened SquashMeta
  import opened SquashInode
  import opened SquashDir
  import opened SquashData
  import opened SquashFrags
  import opened SquashTree
  import opened SquashRead
  import opened SquashWalk
  import opened SquashBuild
  import opened SquashFixups
  import opened SquashCount
  import opened SquashSizes
  import opened SquashSuper

  /** Names an entry can store: its length field holds the length minus one. */
  predicate NamesOk(t: Node)
    decreases t
  {
    t.Dir? ==> forall i :: 0 <= i < |t.entries| ==> 0 < |t.entries[i].name| <= 65536 && NamesOk(t.entries[i].node)
  }

  /** The image behind a superblock: the directory table has no end of its own. */
  function ImageIn(out: bytes, frags: seq<Frag>, s: Super): Image
    requires s.inodeTable <= s.dirTable <= |out|
  {
    Image(out, frags, out[s.inodeTable..s.dirTable], out[s.dirTable..])
  }

  function Open(z: Codec, out: bytes, s: Super): Option<Image> {
    if !(s.inodeTable <= s.dirTable <= |out|) then None
    else
      match ReadFragTable(z, out, s.fragTable, s.fragments)
      case None => None
      case Some(frags) => Some(ImageIn(out, frags, s))
  }

  lemma {:induction false} ExtendsTransitive(a: Layout, b: Layout, c: Layout)
    requires Extends(a, b) && Extends(b, c)
    ensures Extends(a, c)
  {
    GrowsTransitive(a.data, b.data, c.data);
  }

  /** All positions fit their fields. */
  predicate FitsImage(inodes: nat, dirs: nat, s: Super, size: nat) {
    && RefBlock(inodes) < MAX32 && RefBlock(dirs) < MAX32 && s.inodeTable < MAX32
    && s.fragments < NO_FRAGMENT && size < MAX64
  }

  /** A reader that follows the root reference gets the tree, whatever depth it allows for. */
  ghost predicate LeadsTo(v: View, s: Super, t: Node) {
    forall depth: nat :: depth >= Height(t) ==>
      ReadNode(v, s.rootBlock, s.rootOffset, depth) == Some(Found(t, s.inodes, KindOf(t)))
  }

  /** The bytes open as an image that leads to the tree. */
  ghost predicate ReadsBack(z: Codec, bs: nat, out: bytes, s: Super, t: Node)
    requires bs > 0
  {
    var im := Open(z, out, s);
    im.Some? && LeadsTo(ViewOf(z, bs, im.value), s, t)
  }

  /** The tree is stored under the last inode, and all data is flushed. */
  ghost predicate Finished(z: Codec, bs: nat, l: Layout, t: Node) {
    IsCodec(z) && LayoutOk(z, bs, l) && l.data.pending == [] && l.recs != [] && Stores(z, bs, l, t, |l.recs|)
  }

  /** The superblock finds the tables of the layout and its last inode. */
  ghost predicate IsSuper(s: Super, out: bytes, z: Codec, l: Layout)
    requires GroupsOk(l.groups)
  {
    && s.inodeTable == |l.data.image| <= s.dirTable <= |out| && s.inodes == |l.recs| > 0
    && IsImageOf(ImageIn(out, l.data.frags, s), z, l)
    && s.fragments == |l.data.frags| && (l.data.frags != [] ==> HasTable(z, out, l.data.frags, s.fragTable))
    && s.rootBlock == RefBlock(InodePos(l.recs, |l.recs| - 1))
    && s.rootOffset == RefOffset(InodePos(l.recs, |l.recs| - 1))
    && SUPERBLOCK <= s.inodeTable && SUPERBLOCK <= s.fragTable
  }

  /** What follows the tables, and the superblock in front, do not disturb them. */
  lemma {:induction false} SuperUnder(s: Super, out: bytes, more: bytes, z: Codec, l: Layout)
    requires GroupsOk(l.groups) && IsSuper(s, out, z, l) && Under(out, more)
    ensures IsSuper(s, more, z, l)
  {
    hide InodesOnDisk, DirsOnDisk, HasTable;
    UnderSlice(out, more, s.inodeTable, s.dirTable);
    UnderSlice(out, more, s.dirTable, |out|);
    assert out[s.dirTable..] == more[s.dirTable..|out|] == more[s.dirTable..][..|out| - s.dirTable];
    UnderTransitive(l.data.image, out, more);
    if l.data.frags != [] {
      TableUnder(z, out, more, l.data.frags, s.fragTable);
    }
  }

  lemma {:induction false} UnderTransitive(a: bytes, b: bytes, c: bytes)
    requires Under(a, b) && Under(b, c)
    ensures Under(a, c)
  {
  }

  lemma {:induction false} FragmentsFit(z: Codec, bs: nat, d: Data)
    requires DataOk(z, bs, d) && |d.image| < MAX32
    ensures AllFit(d.frags)
  {
    forall i | 0 <= i < |d.frags| ensures FragFits(d.frags[i]) {
      assert FragOk(z, bs, d, i);
    }
  }

  lemma {:induction false} Opened(z: Codec, bs: nat, l: Layout, out: bytes, s: Super)
    requires DataOk(z, bs, l.data) && |l.data.image| < MAX32 && |out| <= MAX64
    requires GroupsOk(l.groups) && IsSuper(s, out, z, l)
    ensures Open(z, out, s) == Some(ImageIn(out, l.data.frags, s))
  {
    FragmentsFit(z, bs, l.data);
    if l.data.frags != [] {
      TableIsRead(z, out, l.data.frags, s.fragTable);
    }
  }

  lemma {:induction false} BuiltImage(z: Codec, bs: nat, l: Layout, out: bytes, s: Super, t: Node)
    requires Finished(z, bs, l, t) && IsSuper(s, out, z, l)
    ensures FitsImage(InodePos(l.recs, |l.recs|), GroupPos(l.groups, |l.groups|), s, |out|) && TreeFits(t) ==>
              ReadsBack(z, bs, out, s, t)
  {
    if FitsImage(InodePos(l.recs, |l.recs|), GroupPos(l.groups, |l.groups|), s, |out|) && TreeFits(t) {
      Opened(z, bs, l, out, s);
      var im := ImageIn(out, l.data.frags, s);
      forall depth: nat | depth >= Height(t)
        ensures ReadNode(ViewOf(z, bs, im), s.rootBlock, s.rootOffset, depth) == Some(Found(t, s.inodes, KindOf(t)))
      {
        ImageReadsBack(z, bs, l, im, t, |l.recs|, depth);
      }
    }
  }

  /** Walking the inode table of the image counts the regular files. */
  lemma {:induction false} BuiltCount(z: Codec, bs: nat, l: Layout, out: bytes, s: Super, files: nat, fits: bool)
    requires IsCodec(z) && GroupsOk(l.groups) && bs > 0 && IsSuper(s, out, z, l)
    ensures FitsImage(InodePos(l.recs, |l.recs|), GroupPos(l.groups, |l.groups|), s, |out|)
            && fits && Adds(bs, files, fits, [], l.recs) ==>
              CountReference(z, out, s.inodeTable, s.dirTable, s.inodes, bs) == Counted(files, true)
  {
    if FitsImage(InodePos(l.recs, |l.recs|), GroupPos(l.groups, |l.groups|), s, |out|)
       && fits && Adds(bs, files, fits, [], l.recs) {
      hide InodesOnDisk, DirsOnDisk, RefBlock, RefOffset, InodePos, GroupPos, HasTable, GroupsOk, CountReference;
      SizedInImage(l, bs);
      CountsBetween(z, l, out, s.inodeTable, s.dirTable, bs);
    }
  }

  lemma {:induction false} CountsBetween(z: Codec, l: Layout, out: bytes, start: nat, end: nat, bs: nat)
    requires IsCodec(z) && GroupsOk(l.groups) && bs > 0 && AllSized(l.recs, bs)
    requires start <= end <= |out| && out[start..end] == InodesOnDisk(z, l)
    ensures CountReference(z, out, start, end, |l.recs|, bs) == Counted(Files(l.recs), true)
  {
    hide *;
    var before, after := out[..start], out[end..];
    CountsWrittenFiles(z, l, before, after, bs);
    assert out == before + InodesOnDisk(z, l) + after;
  }

  /** A directory's groups and its record are new; the record names the groups. */
  ghost predicate AddsDir(
    recs: seq<Rec>, gs: seq<Group>, recs': seq<Rec>, gs': seq<Group>, attr: Attr, children: seq<Child>) {
    && ChildrenOk(recs, children) && GroupsOk(gs') && gs <= gs' && AllEnts(gs'[|gs|..]) == EntsOf(recs, children)
    && recs <= recs' && |recs'| == |recs| + 1 && NamesGroups(recs'[|recs|], gs', |gs|)
    && recs'[|recs|].attr == attr && recs'[|recs|].inum == |recs'| && recs'[|recs|].count == |children|
    && |gs'| == |gs| + GroupsFrom(PositionsOf(recs, children), 0)
  }

  ghost predicate NamesGroups(r: Rec, gs: seq<Group>, lo: nat)
    requires lo <= |gs|
  {
    r.DirRec? && r.lo == lo && r.hi == |gs| && r.listing == GroupPos(gs, lo) && r.listing + r.size == GroupPos(gs, |gs|)
  }

  lemma {:induction false} AddsOneDir(bs: nat, files: nat, fits: bool, a: seq<Rec>, b: seq<Rec>, c: seq<Rec>)
    requires bs > 0 && Adds(bs, files, fits, a, b) && b <= c && |c| == |b| + 1 && c[|b|].DirRec?
    ensures Adds(bs, files, fits, a, c)
  {
    assert c == b + [c[|b|]];
    AddsRec(bs, b, c[|b|], fits);
    AddsBoth(bs, files, 0, fits, fits, a, b, c);
  }

  /** The tree has been stored under the last inode, in the space it takes; what was there before is untouched. */
  ghost predicate Added(z: Codec, bs: nat, l: Layout, k: Layout, t: Node)
    requires bs > 0
  {
    && Extends(l, k) && |l.recs| < |k.recs| && Stores(z, bs, k, t, |k.recs|)
    && Adds(bs, FilesIn(t), TreeFits(t), l.recs, k.recs) && Measured(bs, l, k, t)
  }

  /** From layout `l0` on, the first `n` entries of `t` have been stored, and `children` says where. */
  ghost predicate Walked(z: Codec, bs: nat, l0: Layout, l: Layout, t: Node, children: seq<Child>, n: nat)
    requires t.Dir?
  {
    && n == |children| <= |t.entries| && ChildrenOk(l.recs, children) && AreChildren(z, bs, l, t.entries, children)
    && Extends(l0, l) && bs > 0 && Adds(bs, FilesInSome(t.entries, n), TreeFits(t), l0.recs, l.recs)
    && MeasuredSome(bs, l0, l, t.entries, n, children)
  }

  ghost predicate AreChildren(z: Codec, bs: nat, l: Layout, entries: seq<Entry>, children: seq<Child>) {
    |children| <= |entries| && forall i :: 0 <= i < |children| ==> IsChild(z, bs, l, entries[i], children[i])
  }

  ghost predicate IsChild(z: Codec, bs: nat, l: Layout, e: Entry, c: Child) {
    c.name == e.name && c.kind == KindOf(e.node) && Stores(z, bs, l, e.node, c.inum)
  }

  lemma {:induction false} WalkStarts(z: Codec, bs: nat, l: Layout, t: Node)
    requires t.Dir? && bs > 0 && GroupsOk(l.groups)
    ensures Walked(z, bs, l, l, t, [], 0)
  {
    GrowsRefl(l.data);
    NoneMeasured(bs, l, t.entries);
  }

  lemma {:induction false} WalkedOneMore(z: Codec, bs: nat, l0: Layout, l: Layout, k: Layout, t: Node,
                                         children: seq<Child>, n: nat)
    requires t.Dir? && Walked(z, bs, l0, l, t, children, n) && n < |t.entries| && NamesOk(t)
    requires Added(z, bs, l, k, t.entries[n].node)
    ensures Walked(z, bs, l0, k, t, children + [Child(|k.recs|, KindOf(t.entries[n].node), t.entries[n].name)], n + 1)
  {
    hide Measured, MeasuredSome;
    ExtendsTransitive(l0, l, k);
    AddsBoth(bs, FilesInSome(t.entries, n), FilesIn(t.entries[n].node), TreeFits(t), TreeFits(t.entries[n].node),
             l0.recs, l.recs, k.recs);
    OneMoreChild(z, bs, l, k, t.entries, children, |k.recs|);
    OneMeasuredMore(bs, l0, l, k, t.entries, n, children,
                    Child(|k.recs|, KindOf(t.entries[n].node), t.entries[n].name));
  }

  lemma {:induction false} OneMoreChild(
    z: Codec, bs: nat, l: Layout, k: Layout, entries: seq<Entry>, children: seq<Child>, inum: nat)
    requires ChildrenOk(l.recs, children) && AreChildren(z, bs, l, entries, children) && |children| < |entries|
    requires Extends(l, k) && |l.recs| < inum == |k.recs| && Stores(z, bs, k, entries[|children|].node, inum)
    requires 0 < |entries[|children|].name| <= 65536
    ensures var e := entries[|children|];
      var more := children + [Child(inum, KindOf(e.node), e.name)];
      ChildrenOk(k.recs, more) && AreChildren(z, bs, k, entries, more)
  {
    var n, e := |children|, entries[|children|];
    var more := children + [Child(inum, KindOf(e.node), e.name)];
    forall i | 0 <= i < n + 1
      ensures IsChild(z, bs, k, entries[i], more[i]) && ChildOk(k.recs, more[i])
    {
      if i < n {
        assert IsChild(z, bs, l, entries[i], children[i]) && ChildOk(l.recs, children[i]);
        StoresMono(z, bs, l, k, entries[i].node, children[i].inum);
      }
    }
    forall i, j | 0 <= i < j < n + 1 ensures more[i].inum < more[j].inum {
      assert ChildOk(l.recs, children[i]);
    }
  }

  /** The listing of stored children makes a stored directory. */
  lemma {:induction false} DirStored(z: Codec, bs: nat, l0: Layout, l: Layout, k: Layout, t: Node, children: seq<Child>)
    requires t.Dir? && Walked(z, bs, l0, l, t, children, |t.entries|)
    requires AddsDir(l.recs, l.groups, k.recs, k.groups, t.attr, children) && k.data == l.data
    ensures Added(z, bs, l0, k, t)
  {
    hide Measured, MeasuredSome;
    GrowsRefl(l.data);
    ExtendsTransitive(l0, l, k);
    ListingMeasured(z, bs, l0, l, k, t, children);
    AddsOneDir(bs, FilesIn(t), TreeFits(t), l0.recs, l.recs, k.recs);
    DirRecStores(z, bs, l, k, t, children);
  }

  lemma {:induction false} ListingMeasured(
    z: Codec, bs: nat, l0: Layout, l: Layout, k: Layout, t: Node, children: seq<Child>)
    requires t.Dir? && Walked(z, bs, l0, l, t, children, |t.entries|)
    requires AddsDir(l.recs, l.groups, k.recs, k.groups, t.attr, children) && k.data == l.data
    ensures Measured(bs, l0, k, t)
  {
    hide Measured, MeasuredSome, ListingLen, GroupsFrom, InodePos;
    var es, ps, r := EntsOf(l.recs, children), PositionsOf(l.recs, children), k.recs[|l.recs|];
    forall i | 0 <= i < |es| ensures es[i].name == t.entries[i].name {
      assert IsChild(z, bs, l, t.entries[i], children[i]);
    }
    ListingTakes(l.groups, k.groups, es, t.entries, ps);
    GroupPosMono(l.groups, k.groups, |l.groups|);
    assert k.recs == l.recs + [r];
    DirMeasured(bs, l0, l, k, t, children, r);
  }

  lemma {:induction false} DirRecStores(z: Codec, bs: nat, l: Layout, k: Layout, t: Node, children: seq<Child>)
    requires t.Dir? && AreChildren(z, bs, l, t.entries, children) && |children| == |t.entries| && Extends(l, k)
    requires AddsDir(l.recs, l.groups, k.recs, k.groups, t.attr, children)
    ensures Stores(z, bs, k, t, |k.recs|)
  {
    var r, es := k.recs[|k.recs| - 1], EntsOf(l.recs, children);
    assert k.groups[r.lo..r.hi] == k.groups[|l.groups|..];
    ChildrenStored(z, bs, l, k, t.entries, children);
  }

  lemma {:induction false} ChildrenStored(
    z: Codec, bs: nat, l: Layout, k: Layout, entries: seq<Entry>, children: seq<Child>)
    requires ChildrenOk(l.recs, children) && AreChildren(z, bs, l, entries, children) &&
      |children| == |entries| && Extends(l, k)
    ensures StoresAll(z, bs, k, entries, EntsOf(l.recs, children))
  {
    var es := EntsOf(l.recs, children);
    forall i | 0 <= i < |es|
      ensures RefersTo(k, es[i], entries[i].name, KindOf(entries[i].node))
      ensures Stores(z, bs, k, entries[i].node, es[i].inum)
    {
      assert IsChild(z, bs, l, entries[i], children[i]) && ChildOk(l.recs, children[i]);
      InodePosMono(l.recs, k.recs, children[i].inum - 1);
      StoresMono(z, bs, l, k, entries[i].node, children[i].inum);
    }
  }

  /** The recorded fixups are all the patches the inode table needs, and lie inside it. */
  lemma {:induction false} InodesPatched(i: Inodes, l: Layout)
    requires InodesOk(i, l.recs) && GroupsOk(l.groups)
    ensures AllInRange(|i.raw|, InodePatches(i.fixups)) && ApplyAll(i.raw, InodePatches(i.fixups)) == InodeTable(l)
  {
    PiecesAreOk(l);
    TheseArePieces(i.pieces, l.recs);
    FixupPass(i.pieces);
  }

  /** The same for the directory table. */
  lemma {:induction false} DirsPatched(d: Dirs, pos: map<nat, nat>, l: Layout)
    requires DirsOk(d, pos, l.groups)
    ensures Known(d.fixups, pos)
    ensures AllInRange(|d.raw|, EntryPatches(d.fixups, pos)) &&
      ApplyAll(d.raw, EntryPatches(d.fixups, pos)) == DirTable(l)
  {
    PiecesAreOk(l);
    TheseAreGroupPieces(d.pieces, l.groups);
    FixupPass(d.pieces);
  }

  lemma {:induction false} FixupsInside(i: Inodes, fx: seq<EntryFixup>, recs: seq<Rec>)
    requires InodesOk(i, recs) && Known(fx, i.pos)
    ensures PositionsInside(fx, i.pos, |i.raw|)
  {
    InodeEnd(i, recs);
    forall k | 0 <= k < |fx| ensures i.pos[fx[k].firstInodeNum] < |i.raw| {
      var n := fx[k].firstInodeNum;
      assert 1 <= n <= |recs|;
      InodesTakeBytes(recs, n - 1, |recs|);
    }
  }

  lemma {:induction false} RootInside(i: Inodes, recs: seq<Rec>)
    requires InodesOk(i, recs) && recs != []
    ensures |recs| in i.pos && i.pos[|recs|] == InodePos(recs, |recs| - 1) < |i.raw|
  {
    InodeEnd(i, recs);
  }

  /** One more inode, in all buffers. */
  lemma {:induction false} AddRecord(
    i: Inodes, d: Dirs, recs: seq<Rec>, gs: seq<Group>, r: Rec, pos: map<nat, nat>, fx: seq<InodeFixup>)
    requires InodesOk(i, recs) && DirsOk(d, i.pos, gs)
    requires pos == i.pos[|recs| + 1 := |i.raw|] && fx == i.fixups + FixupsOf(r, |i.raw|)
    ensures InodesOk(Inodes(i.raw + RecBytes(r), pos, fx, i.pieces + [PieceOf(r)]), recs + [r]) && DirsOk(d, pos, gs)
  {
    AddInode(i, recs, r);
    InodeKeepsDirs(d, i.pos, gs, recs, |i.raw|);
  }

  lemma {:induction false} NonEmptyListing(before: seq<Group>, gs: seq<Group>)
    ensures AllEnts(gs) != [] ==> GroupPos(before + gs, |before|) < GroupPos(before + gs, |before + gs|)
  {
    ListingTakesBytes(before + gs, |before|, |before + gs|);
    assert (before + gs)[|before|..|before + gs|] == gs;
  }

  lemma {:induction false} FileStored(z: Codec, bs: nat, l: Layout, k: Layout, t: Node, p: Place)
    requires t.File? && bs > 0 && GroupsOk(k.groups) && k.groups == l.groups && Grows(l.data, k.data)
    requires k.recs == l.recs + [FileRec(t.attr, |k.recs|, p.start, p.frag, p.fragOff, |t.content|, p.sizes)]
    requires Holds(z, bs, k.data, p, t.content) && AtMost(l.data, k.data, |t.content|, 1)
    ensures Added(z, bs, l, k, t)
  {
    hide Measured, AtMost;
    FileMeasured(bs, l, k, t, k.recs[|l.recs|]);
    AddsRec(bs, l.recs, k.recs[|l.recs|], TreeFits(t));
  }

  lemma {:induction false} LinkStored(z: Codec, bs: nat, l: Layout, k: Layout, t: Node)
    requires t.Link? && bs > 0 && GroupsOk(k.groups) && k.groups == l.groups && l.data == k.data
    requires k.recs == l.recs + [LinkRec(t.mtime, |k.recs|, t.target)]
    ensures Added(z, bs, l, k, t)
  {
    hide Measured;
    GrowsRefl(l.data);
    LinkMeasured(bs, l, k, t, k.recs[|l.recs|]);
    AddsRec(bs, l.recs, k.recs[|l.recs|], TreeFits(t));
  }

  lemma {:induction false} FlushStores(z: Codec, bs: nat, l0: Layout, l: Layout, k: Layout, t: Node)
    requires bs > 0 && Added(z, bs, l0, l, t) && Extends(l, k) && k.recs == l.recs && k.groups == l.groups
    requires AtMost(l.data, k.data, 0, 0)
    ensures Added(z, bs, l0, k, t)
  {
    ExtendsTransitive(l0, l, k);
    StoresMono(z, bs, l, k, t, |k.recs|);
  }

  /** The caches hold the two tables as the fixups completed them. */
  ghost predicate HoldTables(mi: Cache, md: Cache, z: Codec, l: Layout) {
    GroupsOk(l.groups) && Caches(mi, z, InodeTable(l), true) && Caches(md, z, DirTable(l), true)
  }

  /** The completed tables are as long as the raw ones. */
  lemma {:induction false} TableLengths(l: Layout)
    requires GroupsOk(l.groups)
    ensures |InodeTable(l)| == InodePos(l.recs, |l.recs|) && |DirTable(l)| == GroupPos(l.groups, |l.groups|)
  {
    hide InodePos, GroupPos, PiecesOk, InodePieces, GroupPieces, GroupsOk;
    PiecesAreOk(l);
    InodePosIsOffset(l.recs, |l.recs|);
    GroupPosIsOffset(l.groups, |l.groups|);
    FinalLength(InodePieces(l.recs));
    FinalLength(GroupPieces(l.groups));
  }

  lemma {:induction false} FinalLength(ps: seq<Piece>)
    requires PiecesOk(ps)
    ensures |Final(ps)| == Offset(ps, |ps|)
  {
    FinalPrefix(ps, |ps|);
    assert ps[..|ps|] == ps;
  }

  /** How long the two tables are on disk. */
  lemma {:induction false} CacheLengths(mi: Cache, md: Cache, z: Codec, l: Layout)
    requires HoldTables(mi, md, z, l)
    ensures var i, d := InodePos(l.recs, |l.recs|), GroupPos(l.groups, |l.groups|);
      && |Written(mi, |mi.blocks|)| == i + 2 * Blocks(i) && |Written(md, |md.blocks|)| == d + 2 * Blocks(d)
  {
    hide Pack, InodeTable, DirTable, Written, InodePos, GroupPos;
    TableLengths(l);
    PackSize(z, InodeTable(l));
    PackSize(z, DirTable(l));
  }

  /** The sizes after the walk, once all data is flushed. */
  lemma {:induction false} SizesAfter(z: Codec, bs: nat, l: Layout, k: Layout, t: Node)
    requires bs > 0 && Added(z, bs, l, k, t) && k.data.pending == []
    ensures InodePos(k.recs, |k.recs|) == TreeEnd(bs, t, InodePos(l.recs, |l.recs|))
    ensures GroupPos(k.groups, |k.groups|) ==
      GroupPos(l.groups, |l.groups|) + ListingsIn(bs, t, InodePos(l.recs, |l.recs|))
    ensures |k.data.image| <= |l.data.image| + |l.data.pending| + ContentIn(t)
    ensures |k.data.frags| <= FragBlocks(l.data) + FilesIn(t)
  {
    hide Stores, Extends, Adds, InodePos, GroupPos, TreeEnd, ListingsIn, ContentIn, FilesIn;
  }

  lemma {:induction false} FileIsBounded(
    inodes: nat, dirs: nat, image: nat, blocks: nat, size: nat, data: nat, frags: nat)
    requires size < image + TablesBound(inodes, dirs, blocks) + 4096 && image <= data && blocks <= frags
    ensures size <= FileBound(inodes, dirs, data, frags)
  {
    hide TablesBound;
    BoundGrows(inodes, dirs, image, blocks, data, frags);
  }

  /** What a caller can compute before the call is enough for the positions of the finished image. */
  lemma {:induction false} WillFitFits(z: Codec, l: Layout, out: bytes, s: Super, inodes: nat, dirs: nat, data: nat,
                                       frags: nat)
    requires GroupsOk(l.groups) && IsSuper(s, out, z, l) && WillFit(inodes, dirs, data, frags)
    requires |l.data.image| <= data && |l.data.frags| <= frags && |out| <= FileBound(inodes, dirs, data, frags)
    ensures FitsImage(inodes, dirs, s, |out|)
  {
    hide IsImageOf, HasTable, FileBound;
    BoundIsSmall(inodes, dirs, data, frags);
  }

  /** Both tables written one after the other behind the data. */
  lemma {:induction false} TablesFollow(z: Codec, l: Layout, mi: Cache, md: Cache, out: bytes, s: Super)
    requires l.recs != [] && HoldTables(mi, md, z, l) && SUPERBLOCK <= |l.data.image| && SUPERBLOCK <= s.fragTable
    requires l.data.image + Written(mi, |mi.blocks|) + Written(md, |md.blocks|) <= out
    requires s.rootBlock == RefBlock(InodePos(l.recs, |l.recs| - 1))
    requires s.rootOffset == RefOffset(InodePos(l.recs, |l.recs| - 1))
    requires s.inodes == |l.recs| && s.inodeTable == |l.data.image|
    requires s.dirTable == s.inodeTable + |Written(mi, |mi.blocks|)|
    requires s.fragments == |l.data.frags| && (l.data.frags != [] ==> HasTable(z, out, l.data.frags, s.fragTable))
    ensures IsSuper(s, out, z, l)
  {
    hide Written, InodeTable, DirTable, Pack, RefBlock, RefOffset, InodePos, HasTable, GroupsOk;
    var a, b := Written(mi, |mi.blocks|), Written(md, |md.blocks|);
    assert out[s.inodeTable..s.dirTable] == a && b <= out[s.dirTable..];
    assert l.data.image <= out;
  }

  // ----- the file -----

  /** The file is read back as the tree, from its superblock on, and the id that everything in it has is root's. */
  ghost predicate FileReadsBack(z: Codec, file: bytes, t: Node) {
    match ReadSuper(file)
    case None => false
    case Some(s) => s.blockSize > 0 && ReadsBack(z, s.blockSize, file, s, t) && ReadId(z, file, s.idTable) == Some(0)
  }

  /** The superblock is in front of the file, and all tables lie in it. */
  ghost predicate Sealed(s: Super, file: bytes, z: Codec, bs: nat) {
    && (exists mkfsTime, comp, blockLog :: SealedWith(s, file, mkfsTime, comp, blockLog))
    && s.blockSize == bs && InFile(s, |file|) && HasIds(z, file, s.idTable)
  }

  predicate InFile(s: Super, size: nat) {
    && s.used <= size && s.inodeTable <= s.dirTable <= size && s.idTable <= size
    && (s.fragTable <= size || s.fragTable == NO_TABLE)
  }

  ghost predicate SealedWith(s: Super, file: bytes, mkfsTime: nat, comp: nat, blockLog: nat) {
    comp < 65536 && blockLog < 65536 && SuperBytes(s, mkfsTime, comp, blockLog) <= file
  }

  lemma {:induction false} SuperNumbersFit(z: Codec, bs: nat, l: Layout, file: bytes, s: Super)
    requires LayoutOk(z, bs, l) && IsSuper(s, file, z, l) && Sealed(s, file, z, bs)
    requires FitsImage(InodePos(l.recs, |l.recs|), GroupPos(l.groups, |l.groups|), s, |file|)
    ensures SuperFits(s)
  {
    hide IsImageOf, HasTable, HasIds, InodePos, GroupPos, SealedWith;
    InodeFits(l, |l.recs| - 1);
  }

  lemma {:induction false} SealedIsRead(s: Super, file: bytes, z: Codec, bs: nat)
    requires Sealed(s, file, z, bs) && SuperFits(s)
    ensures ReadSuper(file) == Some(s)
  {
    hide ReadSuper, HasIds, SuperBytes, SuperFits;
    var mkfsTime, comp, blockLog :| SealedWith(s, file, mkfsTime, comp, blockLog);
    var b := SuperBytes(s, mkfsTime, comp, blockLog);
    SuperIsRead(s, mkfsTime, comp, blockLog, file[|b|..]);
    assert b + file[|b|..] == file;
  }

  /** The finished file is read back as the tree, and counting its regular files gives their number. */
  lemma {:induction false} BuiltFile(z: Codec, bs: nat, l: Layout, file: bytes, s: Super, t: Node)
    requires Finished(z, bs, l, t) && IsSuper(s, file, z, l) && Sealed(s, file, z, bs)
    requires FitsImage(InodePos(l.recs, |l.recs|), GroupPos(l.groups, |l.groups|), s, |file|) && TreeFits(t)
    ensures FileReadsBack(z, file, t) && ReadSuper(file) == Some(s)
    ensures Adds(bs, FilesIn(t), true, [], l.recs) ==> CountInFile(z, file) == Counted(FilesIn(t), true)
  {
    hide IsSuper, InodePos, GroupPos, ReadSuper, ReadsBack, Stores, CountReference, ReadId, FitsImage, TreeFits, Adds;
    SuperNumbersFit(z, bs, l, file, s);
    SealedIsRead(s, file, z, bs);
    BuiltImage(z, bs, l, file, s, t);
    FileSize(InodePos(l.recs, |l.recs|), GroupPos(l.groups, |l.groups|), s, |file|);
    IdIsRead(z, file, s.idTable);
    BuiltCount(z, bs, l, file, s, FilesIn(t), true);
  }

  lemma {:induction false} FileSize(inodes: nat, dirs: nat, s: Super, size: nat)
    requires FitsImage(inodes, dirs, s, size)
    ensures size < MAX64
  {
  }

  lemma {:induction false} MulStep(a: int, b: int)
    ensures (a + 1) * b == a * b + b
  {
  }

  lemma {:induction false} GrowsRefl(d: Data)
    ensures Grows(d, d)
  {
  }
}
