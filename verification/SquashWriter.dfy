/** The squashfs writer (pkg/lib/squashfs/writer.go): a tree goes out bottom-up into data blocks,
    fragment blocks and two metadata tables whose references to each other are patched at the end. */
module SquashWriter {
  import opened Options
  import opened Arith
  import opened SquashBytes
  import opened SquashMeta
  import opened SquashInode
  import opened SquashDir
  import opened SquashData
  import opened SquashFrags
  import opened SquashTree
  import opened SquashRead
  import opened SquashBuild
  import opened SquashFixups
  import opened SquashCount
  import opened SquashSizes
  import opened SquashSteps
  import opened SquashSuper

  class Writer {
    const z: Codec
    const blockSize: nat
    const comp: nat
    const mkfsTime: nat
    var out: bytes
    var dataPos: nat
    var nextInode: nat
    var inodeRaw: bytes
    var dirRaw: bytes
    var inodePos: map<nat, nat>
    var dirEntryFixups: seq<EntryFixup>
    var dirInodeFixups: seq<InodeFixup>
    var fragments: seq<Frag>
    var fragBuf: bytes
    ghost var contents: seq<bytes>
    ghost var recs: seq<Rec>
    ghost var groups: seq<Group>
    ghost var inodePieces: seq<Piece>
    ghost var dirPieces: seq<Piece>

    ghost function D(): Data
      reads this
    {
      Data(out, fragments, contents, fragBuf)
    }

    ghost function L(): Layout
      reads this
    {
      Layout(recs, groups, D())
    }

    ghost predicate DataValid()
      reads this
    {
      IsCodec(z) && DataOk(z, blockSize, D()) && dataPos == |out| && comp < 65536
    }

    ghost predicate TablesValid()
      reads this
    {
      && nextInode == |recs| + 1 && Numbered(recs)
      && InodesOk(Inodes(inodeRaw, inodePos, dirInodeFixups, inodePieces), recs)
      && DirsOk(Dirs(dirRaw, dirEntryFixups, dirPieces), inodePos, groups)
      && Inside(dirInodeFixups, |dirRaw|)
    }

    /** The buffers are those of the layout. */
    ghost predicate Valid()
      reads this
    {
      DataValid() && TablesValid()
    }

    /** The number of the compression and the time are only recorded in the superblock. */
    constructor (z: Codec, blockSize: nat, comp: nat, mkfsTime: nat)
      requires IsCodec(z) && 0 < blockSize < RAW_BIT && comp < 65536
      ensures Valid() && this.z == z && this.blockSize == blockSize && this.comp == comp && this.mkfsTime == mkfsTime
      ensures recs == [] && groups == []
    {
      this.z, this.blockSize, this.comp, this.mkfsTime := z, blockSize, comp, mkfsTime;
      out, dataPos, nextInode := seq(SUPERBLOCK, _ => 0), SUPERBLOCK, 1;
      inodeRaw, dirRaw, inodePos := [], [], map[];
      dirEntryFixups, dirInodeFixups := [], [];
      fragments, fragBuf := [], [];
      contents, recs, groups, inodePieces, dirPieces := [], [], [], [], [];
    }

    // ----- data -----

    method WriteDataBlock(data: bytes) returns (size: nat)
      requires DataValid()
      modifies this`out, this`dataPos
      ensures DataValid() && D() == WithBlock(z, old(D()), data) && Grows(old(D()), D())
      ensures size == Stored(z, data).1 && AtMost(old(D()), D(), |data|, 0)
    {
      BlockKeeps(z, blockSize, D(), data);
      BlockAtMost(z, D(), data);
      var compressed := z.compress(data);
      var toWrite;
      if |compressed| < |data| {
        toWrite, size := compressed, |compressed|;
      } else {
        toWrite, size := data, |data| + RAW_BIT;
      }
      out := out + toWrite;
      dataPos := dataPos + |toWrite|;
    }

    method FlushFragBlock()
      requires DataValid()
      modifies this`out, this`dataPos, this`fragments, this`fragBuf, this`contents
      ensures DataValid() && Grows(old(D()), D()) && fragBuf == []
      ensures old(fragBuf) != [] ==> D() == Flushed(z, old(D()))
      ensures old(fragBuf) == [] ==> D() == old(D())
      ensures AtMost(old(D()), D(), 0, 0)
    {
      if |fragBuf| == 0 {
        return;
      }
      FlushKeeps(z, blockSize, D());
      FlushAtMost(z, D());
      var data, startPos := fragBuf, dataPos;
      var compressed := z.compress(data);
      var toWrite, size;
      if |compressed| < |data| {
        toWrite, size := compressed, |compressed|;
      } else {
        toWrite, size := data, |data| + RAW_BIT;
      }
      out := out + toWrite;
      dataPos := dataPos + |toWrite|;
      fragments := fragments + [Frag(startPos, size)];
      contents := contents + [data];
      fragBuf := [];
    }

    /** A tail joins the pending fragment block, or the next one when that would grow too large. */
    method AddFragment(data: bytes) returns (fragIdx: nat, offset: nat)
      requires DataValid() && |data| <= blockSize
      modifies this`out, this`dataPos, this`fragments, this`fragBuf, this`contents
      ensures DataValid() && Grows(old(D()), D())
      ensures fragIdx == |fragments| && offset + |data| == |fragBuf| && fragBuf[offset..] == data
      ensures AtMost(old(D()), D(), |data|, 1)
    {
      ghost var d := D();
      if |fragBuf| + |data| > blockSize && |fragBuf| > 0 {
        FlushFragBlock();
      }
      CollectKeeps(z, blockSize, D(), data);
      CollectAtMost(D(), data);
      AtMostSum(d, D(), Collected(D(), data), 0, |data|, 0, 1);
      GrowsTransitive(d, D(), Collected(D(), data));
      fragIdx := |fragments|;
      offset := |fragBuf|;
      fragBuf := fragBuf + data;
    }

    /** Full blocks of a file, one after the other. */
    method WriteFullBlocks(content: bytes) returns (sizes: seq<nat>, ghost done: nat)
      requires DataValid()
      modifies this`out, this`dataPos
      ensures DataValid() && Grows(old(D()), D())
      ensures done == |sizes| * blockSize && done <= |content| < done + blockSize
      ensures ReadBlocks(z, out, old(dataPos), sizes) == Some(content[..done])
      ensures forall i :: 0 <= i < |sizes| ==> sizes[i] < 2 * RAW_BIT
      ensures AtMost(old(D()), D(), done, 0)
    {
      hide Grows, FragOk, Stored, ReadBlocks, Stride;
      GrowsRefl(D());
      NoBlocks(z, out, dataPos, content);
      sizes, done := [], 0;
      var remaining: nat := |content|;
      while remaining >= blockSize
        invariant done + remaining == |content| && done == |sizes| * blockSize
        invariant DataValid() && Grows(old(D()), D()) && AtMost(old(D()), D(), done, 0)
        invariant ReadBlocks(z, out, old(dataPos), sizes) == Some(content[..done])
        invariant old(dataPos) + Stride(sizes) == |out|
        invariant forall i :: 0 <= i < |sizes| ==> sizes[i] < 2 * RAW_BIT
      {
        ghost var d := D();
        MulStep(|sizes|, blockSize);
        var block := content[|content| - remaining..|content| - remaining + blockSize];
        StreamBlock(z, out, old(dataPos), sizes, content[..done], block);
        assert content[..done + blockSize] == content[..done] + block;
        var size := WriteDataBlock(block);
        GrowsTransitive(old(D()), d, D());
        AtMostSum(old(D()), d, D(), done, blockSize, 0, 0);
        sizes := sizes + [size];
        remaining := remaining - blockSize;
        done := done + blockSize;
      }
    }

    /** `writeFileDataStreamed`: what it returns leads a reader to exactly the file's bytes, though the
        tail is flushed later. */
    method WriteFileData(content: bytes) returns (p: Place)
      requires DataValid()
      modifies this`out, this`dataPos, this`fragments, this`fragBuf, this`contents
      ensures DataValid() && Grows(old(D()), D()) && Holds(z, blockSize, D(), p, content)
      ensures AtMost(old(D()), D(), |content|, 1)
    {
      var start := dataPos;
      var sizes, done := WriteFullBlocks(content);
      ghost var d := D();
      var fragIdx, fragOff := NO_FRAGMENT, 0;
      var remaining := |content| % blockSize;
      DivModUnique(|content|, blockSize, |sizes|, |content| - done);
      if remaining > 0 {
        var tail := content[|content| - remaining..];
        assert tail == content[done..];
        fragIdx, fragOff := AddFragment(tail);
        GrowsTransitive(old(D()), d, D());
        AtMostSum(old(D()), d, D(), done, |tail|, 0, 1);
        ReadBlocksMono(z, d.image, out, start, sizes);
        assert Tails(D())[fragIdx] == fragBuf;
      }
      p := Place(start, sizes, fragIdx, fragOff);
      BlocksAndTail(z, blockSize, D(), p, content, done);
    }

    // ----- inodes -----

    /** `allocInode` and `appendInode`, for a record `r`; a directory with entries brings the fixup for the
        reference to its listing. */
    method AppendInode(data: bytes, fixups: seq<InodeFixup>, ghost r: Rec) returns (inum: nat)
      requires TablesValid() && r.inum == nextInode && data == RecBytes(r)
      requires FixupsOf(r, |inodeRaw|) == fixups && Inside(fixups, |dirRaw|)
      modifies this`nextInode, this`inodeRaw, this`inodePos, this`dirInodeFixups, this`recs, this`inodePieces
      ensures TablesValid() && recs == old(recs) + [r] && inum == |recs|
    {
      hide InodesOk, DirsOk, FixupsOf, RecBytes, PieceOf;
      var pos, all := inodePos[nextInode := |inodeRaw|], dirInodeFixups + fixups;
      AddRecord(Inodes(inodeRaw, inodePos, dirInodeFixups, inodePieces),
        Dirs(dirRaw, dirEntryFixups, dirPieces), recs, groups, r, pos, all);
      inum, nextInode := nextInode, nextInode + 1;
      inodePos := pos;
      inodeRaw := inodeRaw + data;
      dirInodeFixups := all;
      recs, inodePieces := recs + [r], inodePieces + [PieceOf(r)];
    }

    method BuildFileInode(t: Node) returns (inum: nat)
      requires Valid() && t.File?
      modifies this
      ensures Valid() && inum == |recs| && Added(z, blockSize, old(L()), L(), t)
    {
      var p := WriteFileData(t.content);
      var r := FileRec(t.attr, nextInode, p.start, p.frag, p.fragOff, |t.content|, p.sizes);
      inum := AppendInode(RecBytes(r), [], r);
      FileStored(z, blockSize, old(L()), L(), t, p);
    }

    method BuildSymlinkInode(t: Node) returns (inum: nat)
      requires Valid() && t.Link?
      modifies this
      ensures Valid() && inum == |recs| && Added(z, blockSize, old(L()), L(), t)
    {
      var r := LinkRec(t.mtime, nextInode, t.target);
      inum := AppendInode(RecBytes(r), [], r);
      LinkStored(z, blockSize, old(L()), L(), t);
    }

    // ----- directories -----

    /** How far the group that starts at `groupStart` goes. */
    method GroupEnd(children: seq<Child>, groupStart: nat) returns (groupEnd: nat)
      requires PosOk(inodePos, recs) && ChildrenOk(recs, children) && groupStart < |children|
      ensures groupStart < groupEnd <= |children| && groupEnd - groupStart <= 256
      ensures GroupOk(Group(EntsOf(recs, children[groupStart..groupEnd])))
      ensures groupEnd == GroupStop(PositionsOf(recs, children), groupStart, groupStart + 1)
    {
      hide PosOk, ChildrenOk, PositionsOf, EntsOf, InodePos, GroupOk;
      ghost var ps := PositionsOf(recs, children);
      PositionAt(recs, inodePos, children, groupStart);
      var firstBlock := inodePos[children[groupStart].inum] / META;
      groupEnd := groupStart + 1;
      while groupEnd < |children| && groupEnd - groupStart < 256
        invariant groupStart < groupEnd <= |children| && groupEnd - groupStart <= 256
        invariant forall i :: groupStart <= i < groupEnd ==> ps[i] / META == firstBlock
        invariant GroupStop(ps, groupStart, groupEnd) == GroupStop(ps, groupStart, groupStart + 1)
      {
        PositionAt(recs, inodePos, children, groupEnd);
        if inodePos[children[groupEnd].inum] / META != firstBlock {
          break;
        }
        groupEnd := groupEnd + 1;
      }
      GroupOfPositions(recs, children, groupStart, groupEnd);
    }

    /** The entries of one group, after its header. */
    method EntryBytes(children: seq<Child>, first: nat) returns (buf: bytes)
      requires PosOk(inodePos, recs)
      requires forall i :: 0 <= i < |children| ==> ChildOk(recs, children[i]) && first <= children[i].inum
      ensures forall i :: 0 <= i < |children| ==> Writable(first, EntsOf(recs, children)[i])
      ensures buf == EntsBytes(first, EntsOf(recs, children))
    {
      ghost var es := EntsOf(recs, children);
      assert forall i :: 0 <= i < |es| ==> es[i] == EntOf(recs, children[i]) && Writable(first, es[i]);
      buf := [];
      var k := 0;
      while k < |children|
        invariant k <= |children|
        invariant buf == EntsBytes(first, es[..k])
      {
        var c := children[k];
        assert ChildOk(recs, c);
        var e := Ent(c.inum, inodePos[c.inum], c.kind, c.name);
        EntsSnoc(first, es[..k], e);
        assert es[..k + 1] == es[..k] + [e];
        buf := buf + (Encode(EntFields(first, e)) + e.name);
        k := k + 1;
      }
      assert es[..k] == es;
    }

    /** One group: its header with a placeholder, a fixup for that, its entries. The group goes to
        position `at` of the directory table. */
    method WriteGroup(group: seq<Child>, at: nat, ghost raw: bytes, ghost gs: seq<Group>, ghost ps: seq<Piece>)
      returns (buf: bytes, ghost p: Piece)
      requires PosOk(inodePos, recs) && ChildrenOk(recs, group) && group != []
      requires GroupOk(Group(EntsOf(recs, group)))
      requires DirsOk(Dirs(raw, dirEntryFixups, ps), inodePos, gs) && at == |raw|
      modifies this`dirEntryFixups
      ensures DirsOk(Dirs(raw + buf, dirEntryFixups, ps + [p]), inodePos, gs + [Group(EntsOf(recs, group))])
    {
      ghost var g := Group(EntsOf(recs, group));
      assert ChildOk(recs, group[0]);
      var first := group[0].inum;
      var header := GroupHeader(|group|, 0, first);
      var entries := EntryBytes(group, first);
      AddGroup(Dirs(raw, dirEntryFixups, ps), inodePos, gs, g);
      p := GroupPiece(g);
      dirEntryFixups := dirEntryFixups + [EntryFixup(at + 4, first)];
      buf := header + entries;
    }

    method WriteNextGroup(children: seq<Child>, groupStart: nat, at: nat, ghost raw: bytes, ghost gs: seq<Group>,
                          ghost ps: seq<Piece>)
      returns (groupEnd: nat, buf: bytes, ghost g: Group, ghost p: Piece)
      requires PosOk(inodePos, recs) && ChildrenOk(recs, children) && groupStart < |children|
      requires DirsOk(Dirs(raw, dirEntryFixups, ps), inodePos, gs) && at == |raw|
      modifies this`dirEntryFixups
      ensures groupStart < groupEnd <= |children| && g == Group(EntsOf(recs, children)[groupStart..groupEnd])
      ensures GroupsFrom(PositionsOf(recs, children), groupStart) ==
        1 + GroupsFrom(PositionsOf(recs, children), groupEnd)
      ensures DirsOk(Dirs(raw + buf, dirEntryFixups, ps + [p]), inodePos, gs + [g])
    {
      groupEnd := GroupEnd(children, groupStart);
      SomeChildren(recs, children, groupStart, groupEnd);
      g := Group(EntsOf(recs, children[groupStart..groupEnd]));
      buf, p := WriteGroup(children[groupStart..groupEnd], at, raw, gs, ps);
    }

    /** All groups of a directory, for position `at` of the directory table. */
    method WriteGroups(children: seq<Child>, at: nat, ghost raw: bytes, ghost before: seq<Group>)
      returns (buf: bytes, ghost gs: seq<Group>, ghost ps: seq<Piece>)
      requires PosOk(inodePos, recs) && ChildrenOk(recs, children)
      requires DirsOk(Dirs(raw, dirEntryFixups, dirPieces), inodePos, before) && at == |raw|
      modifies this`dirEntryFixups
      ensures DirsOk(Dirs(raw + buf, dirEntryFixups, ps), inodePos, before + gs)
      ensures AllEnts(gs) == EntsOf(recs, children) && |gs| == GroupsFrom(PositionsOf(recs, children), 0)
    {
      hide DirsOk, PosOk, PositionsOf, GroupOk, InodePos;
      buf, gs, ps := [], [], dirPieces;
      var groupStart := 0;
      ghost var table, all, es, positions := raw, before, EntsOf(recs, children), PositionsOf(recs, children);
      while groupStart < |children|
        invariant groupStart <= |children| && table == raw + buf && all == before + gs
        invariant DirsOk(Dirs(table, dirEntryFixups, ps), inodePos, all)
        invariant AllEnts(gs) == es[..groupStart]
        invariant |gs| + GroupsFrom(positions, groupStart) == GroupsFrom(positions, 0)
      {
        var groupEnd, more, g, p := WriteNextGroup(children, groupStart, at + |buf|, table, all, ps);
        NextGroup(gs, es, groupStart, groupEnd);
        buf := buf + more;
        gs, table, all, ps := gs + [g], table + more, all + [g], ps + [p];
        groupStart := groupEnd;
      }
      assert es[..groupStart] == es;
    }

    /** `buildDirEntries`: the children in order, grouped by the metadata block of their inodes. */
    method BuildDirEntries(children: seq<Child>) returns (dirRawPos: nat, dirSize: nat)
      requires TablesValid() && ChildrenOk(recs, children)
      modifies this`dirRaw, this`dirEntryFixups, this`groups, this`dirPieces
      ensures TablesValid() && old(groups) <= groups && AllEnts(groups[|old(groups)|..]) == EntsOf(recs, children)
      ensures dirRawPos == GroupPos(groups, |old(groups)|) && dirRawPos + dirSize == GroupPos(groups, |groups|)
      ensures |groups| == |old(groups)| + GroupsFrom(PositionsOf(recs, children), 0)
      ensures children != [] ==> dirRawPos < |dirRaw|
    {
      assert PosOk(inodePos, recs);
      hide InodesOk, DirsOk, PosOk, GroupPos, AllEnts, EntsOf;
      dirRawPos := |dirRaw|;
      var buf, gs, ps := WriteGroups(children, dirRawPos, dirRaw, groups);
      ListingSpan(old(Dirs(dirRaw, dirEntryFixups, dirPieces)), groups,
        Dirs(dirRaw + buf, dirEntryFixups, ps), groups + gs, inodePos);
      NonEmptyListing(groups, gs);
      dirSize := |buf|;
      dirRaw := dirRaw + buf;
      groups, dirPieces := groups + gs, ps;
    }

    method BuildDirInode(attr: Attr, children: seq<Child>, dirRawPos: nat, dirSize: nat, ghost lo: nat, ghost hi: nat)
      returns (inum: nat)
      requires TablesValid() && (children != [] ==> dirRawPos < |dirRaw|)
      modifies this`nextInode, this`inodeRaw, this`inodePos, this`dirInodeFixups, this`recs, this`inodePieces
      ensures TablesValid() && inum == |recs|
      ensures recs == old(recs) + [DirRec(attr, inum, |children|, dirRawPos, dirSize, lo, hi)]
    {
      ghost var r := DirRec(attr, nextInode, |children|, dirRawPos, dirSize, lo, hi);
      var data := DirBytes(attr, nextInode, |children|, dirSize, 0, 0);
      var fixups := if |children| > 0 then [InodeFixup(|inodeRaw| + RefField(dirSize), dirRawPos)] else [];
      inum := AppendInode(data, fixups, r);
    }

    /** The switch of `processDir` over one entry. */
    method ProcessNode(t: Node) returns (inum: nat)
      requires Valid() && NamesOk(t)
      modifies this
      ensures Valid() && inum == |recs| && Added(z, blockSize, old(L()), L(), t)
      decreases t, 1, 0
    {
      match t
      case File(_, _) => inum := BuildFileInode(t);
      case Link(_, _) => inum := BuildSymlinkInode(t);
      case Dir(_, _) => inum := ProcessDir(t);
    }

    /** `processDir`: children first, then the listing, then the directory's own inode. */
    method ProcessDir(t: Node) returns (inum: nat)
      requires Valid() && NamesOk(t) && t.Dir?
      modifies this
      ensures Valid() && inum == |recs| && Added(z, blockSize, old(L()), L(), t)
      decreases t, 0, 1
    {
      hide Walked, Added, InodesOk, Numbered, Stores, TreeFits;
      ghost var l0 := L();
      WalkStarts(z, blockSize, l0, t);
      var children: seq<Child> := [];
      var i := 0;
      while i < |t.entries|
        invariant 0 <= i <= |t.entries| && Valid() && Walked(z, blockSize, l0, L(), t, children, i)
      {
        var c := ProcessEntry(t, i, children, l0);
        children := children + [c];
        i := i + 1;
      }
      inum := FinishDir(t, children, l0);
    }

    method ProcessEntry(t: Node, i: nat, ghost children: seq<Child>, ghost l0: Layout) returns (c: Child)
      requires Valid() && NamesOk(t) && t.Dir? && i < |t.entries| && Walked(z, blockSize, l0, L(), t, children, i)
      modifies this
      ensures Valid() && Walked(z, blockSize, l0, L(), t, children + [c], i + 1)
      decreases t, 0, 0
    {
      ghost var l := L();
      var n := ProcessNode(t.entries[i].node);
      WalkedOneMore(z, blockSize, l0, l, L(), t, children, i);
      c := Child(n, KindOf(t.entries[i].node), t.entries[i].name);
    }

    /** Listing and inode of a directory. */
    method WriteDir(attr: Attr, children: seq<Child>) returns (inum: nat)
      requires TablesValid() && ChildrenOk(recs, children)
      modifies this`dirRaw, this`dirEntryFixups, this`groups, this`dirPieces
      modifies this`nextInode, this`inodeRaw, this`inodePos, this`dirInodeFixups, this`recs, this`inodePieces
      ensures TablesValid() && inum == |recs|
      ensures AddsDir(old(recs), old(groups), recs, groups, attr, children)
    {
      ghost var gs := groups;
      var dirRawPos, dirSize := BuildDirEntries(children);
      inum := BuildDirInode(attr, children, dirRawPos, dirSize, |gs|, |groups|);
    }

    method FinishDir(t: Node, children: seq<Child>, ghost l0: Layout) returns (inum: nat)
      requires Valid() && t.Dir? && Walked(z, blockSize, l0, L(), t, children, |t.entries|)
      modifies this
      ensures Valid() && inum == |recs| && Added(z, blockSize, l0, L(), t)
    {
      ghost var l := L();
      inum := WriteDir(t.attr, children);
      DirStored(z, blockSize, l0, l, L(), t, children);
    }

    // ----- the tables -----

    /** The directory table with its references in place. Block offsets do not depend on the content, so
        those of the unpatched inode table still hold. */
    method FixDirs() returns (dirCache: Cache)
      requires TablesValid()
      ensures GroupsOk(groups) && Caches(dirCache, z, DirTable(L()), true) && OffsetsOk(dirCache.offsets, |dirRaw|)
    {
      hide InodesOk, GroupsOk, InodePatches, EntryPatches, ApplyAll, DirTable, Written, Pack;
      DirsPatched(Dirs(dirRaw, dirEntryFixups, dirPieces), inodePos, L());
      FixupsInside(Inodes(inodeRaw, inodePos, dirInodeFixups, inodePieces), dirEntryFixups, recs);
      var early := CompressMetadataBlocks(z, inodeRaw, true);
      var dirData := ToArray(dirRaw);
      PatchEntries(dirData, dirEntryFixups, inodePos, early.offsets, |inodeRaw|);
      dirCache := CompressMetadataBlocks(z, dirData[..], true);
    }

    /** Both tables with their references in place. */
    method FixReferences() returns (inodeCache: Cache, dirCache: Cache)
      requires TablesValid()
      ensures HoldTables(inodeCache, dirCache, z, L())
      ensures OffsetsOk(inodeCache.offsets, |inodeRaw|)
    {
      hide InodesOk, DirsOk, GroupsOk, InodePatches, EntryPatches, ApplyAll, InodeTable, DirTable, Written, Pack;
      dirCache := FixDirs();
      InodesPatched(Inodes(inodeRaw, inodePos, dirInodeFixups, inodePieces), L());
      var inodeData := ToArray(inodeRaw);
      PatchInodes(inodeData, dirInodeFixups, dirCache.offsets, |dirRaw|);
      inodeCache := CompressMetadataBlocks(z, inodeData[..], true);
    }

    method WriteMetadataCached(mc: Cache)
      requires |mc.blocks| == |mc.headers| && dataPos == |out|
      modifies this`out, this`dataPos
      ensures out == old(out) + Written(mc, |mc.blocks|) && dataPos == |out|
    {
      var i := 0;
      while i < |mc.blocks|
        invariant i <= |mc.blocks| && dataPos == |out|
        invariant out == old(out) + Written(mc, i)
      {
        out := out + (LE(mc.headers[i], 2) + mc.blocks[i]);
        dataPos := dataPos + 2 + |mc.blocks[i]|;
        i := i + 1;
      }
    }

    /** Where the tables start. */
    method WriteAll(inodes: Cache, dirs: Cache) returns (dirTableStart: nat, fragTableStart: nat, idTableStart: nat)
      requires |inodes.blocks| == |inodes.headers| && |dirs.blocks| == |dirs.headers| && dataPos == |out| && IsCodec(z)
      requires SUPERBLOCK <= |out|
      modifies this`out, this`dataPos
      ensures old(out) + Written(inodes, |inodes.blocks|) + Written(dirs, |dirs.blocks|) <= out && dataPos == |out|
      ensures dirTableStart == old(|out|) + |Written(inodes, |inodes.blocks|)|
      ensures HasTable(z, out, fragments, fragTableStart) && SUPERBLOCK <= fragTableStart <= |out|
      ensures HasIds(z, out, idTableStart) && idTableStart <= |out|
      ensures |out| <= old(|out|) + |Written(inodes, |inodes.blocks|)| + |Written(dirs, |dirs.blocks|)| +
        16 * |fragments| + 10 * Blocks(16 * |fragments|) + 14
    {
      hide Written, HasTable, HasIds;
      WriteMetadataCached(inodes);
      dirTableStart := dataPos;
      WriteMetadataCached(dirs);
      out, fragTableStart := WriteFragmentTable(z, out, fragments);
      ghost var before := out;
      out, idTableStart := WriteIdTable(z, out);
      TableUnder(z, before, out, fragments, fragTableStart);
      dataPos := |out|;
    }

    /** The walk, and the last fragment block. */
    method WriteTree(t: Node)
      requires Valid() && t.Dir? && NamesOk(t)
      modifies this
      ensures Valid() && fragBuf == [] && Added(z, blockSize, old(L()), L(), t)
    {
      hide Added, InodesOk, Numbered, FragOk, AtMost, NamesOk, Inside, Flushed;
      var root := ProcessDir(t);
      ghost var l := L();
      FlushFragBlock();
      FlushStores(z, blockSize, old(L()), l, L(), t);
    }

    lemma {:induction false} TableSizes()
      requires TablesValid()
      ensures |inodeRaw| == InodePos(recs, |recs|) && |dirRaw| == GroupPos(groups, |groups|)
    {
      InodeEnd(Inodes(inodeRaw, inodePos, dirInodeFixups, inodePieces), recs);
      DirEnd(Dirs(dirRaw, dirEntryFixups, dirPieces), inodePos, groups);
    }

    /** The tables behind the data, and what the superblock says of them. */
    method WriteTables() returns (s: Super)
      requires TablesValid() && recs != [] && dataPos == |out| && IsCodec(z) && SUPERBLOCK <= |out|
      modifies this`out, this`dataPos
      ensures GroupsOk(groups) && IsSuper(s, out, z, old(L())) && InFile(s, |out|) && HasIds(z, out, s.idTable)
      ensures s.blockSize == blockSize && s.used == dataPos == |out|
      ensures |out| <= old(|out|) +
        TablesBound(InodePos(recs, |recs|), GroupPos(groups, |groups|), |fragments|)
    {
      var inodeCache, dirCache := FixReferences();
      var rootBlock, rootOffset := RootRef(inodeCache.offsets);
      s := EmitTables(inodeCache, dirCache, rootBlock, rootOffset);
    }

    method EmitTables(inodeCache: Cache, dirCache: Cache, rootBlock: nat, rootOffset: nat) returns (s: Super)
      requires IsCodec(z) && recs != [] && nextInode == |recs| + 1 && dataPos == |out| && SUPERBLOCK <= |out|
      requires HoldTables(inodeCache, dirCache, z, L())
      requires rootBlock == RefBlock(InodePos(recs, |recs| - 1)) && rootOffset == RefOffset(InodePos(recs, |recs| - 1))
      modifies this`out, this`dataPos
      ensures GroupsOk(groups) && IsSuper(s, out, z, old(L())) && InFile(s, |out|) && HasIds(z, out, s.idTable)
      ensures s.blockSize == blockSize && s.used == dataPos == |out|
      ensures |out| <= old(|out|) +
        TablesBound(InodePos(recs, |recs|), GroupPos(groups, |groups|), |fragments|)
    {
      hide RefBlock, RefOffset, InodePos, IsSuper, HasIds, HasTable, GroupsOk, Written;
      ghost var l := L();
      var inodeTableStart := dataPos;
      var dirTableStart, fragTableStart, idTableStart := WriteAll(inodeCache, dirCache);
      if |fragments| == 0 {
        fragTableStart := NO_TABLE;
      }
      s := Super(nextInode - 1, blockSize, |fragments|, rootBlock, rootOffset, dataPos, idTableStart,
                 inodeTableStart, dirTableStart, fragTableStart);
      CacheLengths(inodeCache, dirCache, z, l);
      TablesFollow(z, l, inodeCache, dirCache, out, s);
    }

    /** Padding to a multiple of 4 KiB, then the superblock in front. */
    method Seal(s: Super)
      requires InFile(s, |out|) && HasIds(z, out, s.idTable) && s.blockSize == blockSize > 0 && comp < 65536
      requires SUPERBLOCK <= dataPos == |out| && blockSize < RAW_BIT
      modifies this`out
      ensures Under(old(out), out) && |out| % 4096 == 0 && |out| < old(|out|) + 4096
      ensures Sealed(s, out, z, blockSize)
    {
      var pad := (4096 - dataPos % 4096) % 4096;
      out := out + seq(pad, _ => 0);
      ghost var padded := out;
      var blockLog := BlockLog(blockSize);
      LogFits(blockSize);
      var head := SuperBytes(s, mkfsTime, comp, blockLog);
      SuperLength(s, mkfsTime, comp, blockLog);
      out := head + out[SUPERBLOCK..];
      IdsUnder(z, old(out), out, s.idTable);
      assert SealedWith(s, out, mkfsTime, comp, blockLog);
    }

    /** `inodeRef` of the last inode. */
    method RootRef(offsets: seq<nat>) returns (block: nat, offset: nat)
      requires TablesValid() && recs != [] && OffsetsOk(offsets, |inodeRaw|)
      ensures block == RefBlock(InodePos(recs, |recs| - 1)) && offset == RefOffset(InodePos(recs, |recs| - 1))
    {
      RootInside(Inodes(inodeRaw, inodePos, dirInodeFixups, inodePieces), recs);
      var p := inodePos[nextInode - 1];
      BlockOf(offsets, |inodeRaw|, p);
      block, offset := offsets[p / META], p % META;
    }

    /** `build`: the inode table and the directory table grow by exactly what the tree takes, and the file stays under
        a bound. Whatever the tree, when the sizes computed from it and from the state before the call leave all
        positions room, the file starts with the superblock that is returned, is read back as the tree from there
        on, and counting its regular files gives their number. */
    method Build(t: Node) returns (s: Super)
      requires Valid() && t.Dir? && NamesOk(t)
      modifies this
      ensures |out| % 4096 == 0
      ensures |inodeRaw| == TreeEnd(blockSize, t, old(|inodeRaw|))
      ensures |dirRaw| == old(|dirRaw|) + ListingsIn(blockSize, t, old(|inodeRaw|))
      ensures |out| <= FileBound(|inodeRaw|, |dirRaw|, old(|out| + |fragBuf|) + ContentIn(t),
                                 old(FragBlocks(D())) + FilesIn(t))
      ensures old(HasRoomFor(t)) && TreeFits(t) ==> FileReadsBack(z, out, t) && ReadSuper(out) == Some(s)
      ensures old(HasRoomFor(t)) && TreeFits(t) && old(recs) == [] ==>
                CountInFile(z, out) == Counted(FilesIn(t), true)
    {
      hide InodesOk, DirsOk, FitsImage, TreeFits, FileReadsBack, CountInFile, TablesBound, FragBlocks,
        FilesIn, Stores, IsSuper, InodePos, GroupPos, TreeEnd, ListingsIn, ContentIn, FileBound, WillFit, Measured;
      ghost var l0 := L();
      ghost var data, frags := |out| + |fragBuf| + ContentIn(t), FragBlocks(D()) + FilesIn(t);
      TableSizes();
      WriteTree(t);
      ghost var l := L();
      TableSizes();
      SizesAfter(z, blockSize, l0, l, t);
      s := WriteTables();
      ghost var body := out;
      Seal(s);
      SuperUnder(s, body, out, z, l);
      FileIsBounded(|inodeRaw|, |dirRaw|, |l.data.image|, |l.data.frags|, |out|, data, frags);
      if WillFit(|inodeRaw|, |dirRaw|, data, frags) && TreeFits(t) {
        WillFitFits(z, l, out, s, |inodeRaw|, |dirRaw|, data, frags);
        BuiltFile(z, blockSize, l, out, s, t);
      }
    }

    /** What a caller can check before `Build`: the tree's sizes, added to what is there, leave all positions room. */
    ghost predicate HasRoomFor(t: Node)
      requires blockSize > 0
      reads this
    {
      WillFit(TreeEnd(blockSize, t, |inodeRaw|), |dirRaw| + ListingsIn(blockSize, t, |inodeRaw|),
              |out| + |fragBuf| + ContentIn(t), FragBlocks(D()) + FilesIn(t))
    }
  }
}
