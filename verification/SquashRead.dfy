/** Reading a squashfs image: following the root reference and every reference below it gives the tree
    back that was written. */
module SquashRead {
  import opened Options
  import opened SquashBytes
  import opened SquashMeta
  import opened SquashInode
  import opened SquashDir
  import opened SquashData
  import opened SquashTree

  /** The parts of an image a reader uses: data area, fragment table, inode table, directory table. */
  datatype Image = Image(data: bytes, frags: seq<Frag>, inodes: bytes, dirs: bytes)

  /** The metadata from a reference on. */
  function Follow(z: Codec, table: bytes, block: nat, offset: nat): Option<bytes> {
    if block > |table| then None
    else
      var seen := Unpack(z, table[block..]);
      if offset > |seen| then None else Some(seen[offset..])
  }

  function InodeAt(z: Codec, bs: nat, inodes: bytes, block: nat, offset: nat): Option<Inode>
    requires bs > 0
  {
    match Follow(z, inodes, block, offset)
    case None => None
    case Some(s) => ParseInode(s, bs)
  }

  /** The entries of a directory. */
  function Listing(z: Codec, dirs: bytes, i: Inode): Option<seq<Dirent>> {
    if !i.DirInode? || i.fileSize < 3 then None
    else if i.fileSize == 3 then Some([])
    else
      match Follow(z, dirs, i.block, i.offset)
      case None => None
      case Some(s) => if |s| < i.fileSize - 3 then None else ParseListing(s[..i.fileSize - 3])
  }

  // ----- the image of a layout -----

  lemma {:induction false} PiecesAreOk(l: Layout)
    requires GroupsOk(l.groups)
    ensures PiecesOk(InodePieces(l.recs)) && PiecesOk(GroupPieces(l.groups))
  {
    forall i | 0 <= i < |l.recs| ensures PieceOk(InodePieces(l.recs)[i]) {
      PatchedRec(l.recs[i]);
    }
    forall i | 0 <= i < |l.groups| ensures PieceOk(GroupPieces(l.groups)[i]) {
      PatchedGroup(l.groups[i]);
    }
  }

  /** The two tables after the fixup pass. */
  function InodeTable(l: Layout): bytes {
    Final(InodePieces(l.recs))
  }

  function DirTable(l: Layout): bytes {
    Final(GroupPieces(l.groups))
  }

  /** The tables as they lie on disk. */
  function InodesOnDisk(z: Codec, l: Layout): bytes {
    Pack(z, InodeTable(l), true)
  }

  function DirsOnDisk(z: Codec, l: Layout): bytes {
    Pack(z, DirTable(l), true)
  }

  /** The record of an inode is found at its reference. */
  lemma {:induction false} FollowInode(z: Codec, l: Layout, i: nat, p: nat) returns (s: bytes)
    requires IsCodec(z) && GroupsOk(l.groups) && i < |l.recs| && p == InodePos(l.recs, i)
    ensures Follow(z, InodesOnDisk(z, l), RefBlock(p), RefOffset(p)) == Some(s) && FixedBytes(l.recs[i]) <= s
  {
    var raw := InodeTable(l);
    var q := RecordAt(l, i, p);
    s := FollowRaw(z, raw, p);
    assert raw[p..][..q - p] == raw[p..q];
  }

  /** A completed record lies in the inode table. */
  lemma {:induction false} RecordAt(l: Layout, i: nat, p: nat) returns (q: nat)
    requires GroupsOk(l.groups) && i < |l.recs| && p == InodePos(l.recs, i)
    ensures p <= q <= |InodeTable(l)| && InodeTable(l)[p..q] == FixedBytes(l.recs[i])
  {
    InodePosIsOffset(l.recs, i);
    PieceAt(InodePieces(l.recs), i);
    PatchedRec(l.recs[i]);
    q := Offset(InodePieces(l.recs), i + 1);
  }

  /** Following a reference into a table that nothing follows. */
  lemma {:induction false} FollowRaw(z: Codec, raw: bytes, p: nat) returns (s: bytes)
    requires IsCodec(z) && p <= |raw|
    ensures Follow(z, Pack(z, raw, true), RefBlock(p), RefOffset(p)) == Some(s) && s == raw[p..]
  {
    FollowReference(z, raw, p, []);
    assert Pack(z, raw, true) + [] == Pack(z, raw, true);
    assert Unpack(z, []) == [];
    s := raw[p..];
    assert raw[p..] + [] == s;
  }

  /** Groups that are completed make the listing. */
  lemma {:induction false} GroupsAreListing(gs: seq<Group>)
    requires GroupsOk(gs)
    ensures Final(GroupPieces(gs)) == ListingBytes(gs)
    decreases |gs|
  {
    if gs != [] {
      var g, more := gs[0], gs[1..];
      assert GroupOk(g) && GroupsOk(more);
      GroupsAreListing(more);
      PatchedGroup(g);
      FinalCons(GroupPiece(g), GroupBytes(g, GroupRef(g)), GroupPieces(more), GroupPieces(gs));
    }
  }

  /** The groups lo..hi lie one after the other in the directory table. */
  lemma {:induction false} GroupsAt(l: Layout, gs: seq<Group>, lo: nat, hi: nat, p: nat, q: nat)
    requires GroupsOk(l.groups) && lo <= hi <= |l.groups| && gs == l.groups[lo..hi] && GroupsOk(gs)
    requires p == GroupPos(l.groups, lo) && q == GroupPos(l.groups, hi)
    ensures p <= q <= |DirTable(l)| && DirTable(l)[p..q] == ListingBytes(gs)
  {
    GroupPosIsOffset(l.groups, lo);
    GroupPosIsOffset(l.groups, hi);
    PartOfPieces(l.groups, gs, lo, hi);
    FinalRange(GroupPieces(l.groups), GroupPieces(gs), lo, hi, p, q);
    GroupsAreListing(gs);
  }

  lemma {:induction false} PartOfPieces(all: seq<Group>, gs: seq<Group>, lo: nat, hi: nat)
    requires lo <= hi <= |all| && gs == all[lo..hi]
    ensures GroupPieces(gs) == GroupPieces(all)[lo..hi]
  {
  }

  // ----- numbers fit their fields -----

  /** All positions in the image fit 32 bits. */
  predicate PositionsFit(l: Layout) {
    && RefBlock(InodePos(l.recs, |l.recs|)) < MAX32 && RefBlock(GroupPos(l.groups, |l.groups|)) < MAX32
    && |l.data.image| < MAX32 && |l.data.frags| < NO_FRAGMENT
  }

  predicate TreeFits(t: Node)
    decreases t
  {
    match t
    case File(attr, content) => AttrFits(attr) && |content| < MAX32
    case Link(mtime, target) => mtime < MAX32
    case Dir(attr, entries) =>
      AttrFits(attr) && forall i :: 0 <= i < |entries| ==> TreeFits(entries[i].node)
  }

  lemma {:induction false} TableFits(size: nat, p: nat)
    requires RefBlock(size) < MAX32 && p <= size
    ensures RefBlock(p) < MAX32 && p + 3 < MAX32
  {
    assert p / META <= size / META;
  }

  /** Inode numbers and positions fit 32 bits. */
  lemma {:induction false} InodeFits(l: Layout, i: nat)
    requires PositionsFit(l) && i < |l.recs|
    ensures i + 1 < MAX32 && RefBlock(InodePos(l.recs, i)) < MAX32 && RecLen(l.recs[i]) < MAX32
  {
    InodesTakeBytes(l.recs, 0, i);
    InodesTakeBytes(l.recs, i + 1, |l.recs|);
    TableFits(InodePos(l.recs, |l.recs|), InodePos(l.recs, i));
    TableFits(InodePos(l.recs, |l.recs|), InodePos(l.recs, i + 1));
  }

  lemma {:induction false} GroupPosGrows(gs: seq<Group>, i: nat, j: nat)
    requires i <= j <= |gs|
    ensures GroupPos(gs, i) <= GroupPos(gs, j)
    decreases j
  {
    if i < j {
      GroupPosGrows(gs, i, j - 1);
    }
  }

  lemma {:induction false} EntsTakeBytes(es: seq<Ent>)
    ensures |es| <= EntsLen(es)
    decreases |es|
  {
    if es != [] {
      EntsTakeBytes(es[1..]);
    }
  }

  /** A listing is longer than the number of its entries, and empty only without any. */
  lemma {:induction false} ListingTakesBytes(gs: seq<Group>, lo: nat, hi: nat)
    requires lo <= hi <= |gs|
    ensures GroupPos(gs, lo) + |AllEnts(gs[lo..hi])| <= GroupPos(gs, hi)
    ensures AllEnts(gs[lo..hi]) != [] ==> GroupPos(gs, lo) < GroupPos(gs, hi)
    ensures GroupsOk(gs) && lo < hi ==> AllEnts(gs[lo..hi]) != []
    decreases hi - lo
  {
    if lo < hi {
      assert gs[lo..hi][1..] == gs[lo + 1..hi];
      EntsTakeBytes(gs[lo].ents);
      ListingTakesBytes(gs, lo + 1, hi);
      assert GroupsOk(gs) ==> GroupOk(gs[lo]);
    }
  }

  lemma {:induction false} FileFits(z: Codec, bs: nat, l: Layout, t: Node, inum: nat)
    requires LayoutOk(z, bs, l) && PositionsFit(l) && Stores(z, bs, l, t, inum) && TreeFits(t) && t.File?
    ensures RecFits(l.recs[inum - 1], bs)
  {
    var r := l.recs[inum - 1];
    InodeFits(l, inum - 1);
    if r.frag != NO_FRAGMENT {
      if r.frag < |l.data.contents| {
        assert FragOk(z, bs, l.data, r.frag);
      }
    }
  }

  lemma {:induction false} LinkFits(z: Codec, bs: nat, l: Layout, t: Node, inum: nat)
    requires LayoutOk(z, bs, l) && PositionsFit(l) && Stores(z, bs, l, t, inum) && TreeFits(t) && t.Link?
    ensures RecFits(l.recs[inum - 1], bs)
  {
    InodeFits(l, inum - 1);
    RecSize(l.recs[inum - 1]);
  }

  /** The directory's own record, and its listing as a reader gets it. */
  lemma {:induction false} DirFits(z: Codec, bs: nat, l: Layout, r: Rec, i: nat)
    requires LayoutOk(z, bs, l) && PositionsFit(l) && r.DirRec? && AttrFits(r.attr)
    requires IsListing(l, r) && i < |l.recs| && l.recs[i] == r
    ensures RecFits(r, bs)
  {
    InodeFits(l, i);
    ListingTakesBytes(l.groups, r.lo, r.hi);
    GroupPosGrows(l.groups, r.hi, |l.groups|);
    TableFits(GroupPos(l.groups, |l.groups|), r.listing);
    TableFits(GroupPos(l.groups, |l.groups|), r.listing + r.size);
  }

  lemma {:induction false} EntInAll(gs: seq<Group>, j: nat) returns (k: nat)
    requires GroupsOk(gs) && j < |gs|
    ensures k < |AllEnts(gs)| && AllEnts(gs)[k] == gs[j].ents[0]
    decreases |gs|
  {
    assert GroupOk(gs[j]);
    if j == 0 {
      k := 0;
    } else {
      assert GroupsOk(gs[1..]);
      var m := EntInAll(gs[1..], j - 1);
      k := |gs[0].ents| + m;
    }
  }

  /** The entries refer to records of the layout. */
  ghost predicate Refer(l: Layout, es: seq<Ent>) {
    forall i :: 0 <= i < |es| ==> RefersTo(l, es[i], es[i].name, es[i].kind)
  }

  lemma {:induction false} GroupsFit(l: Layout, gs: seq<Group>)
    requires GroupsOk(l.groups) && PositionsFit(l) && GroupsOk(gs) && Refer(l, AllEnts(gs))
    ensures forall j :: 0 <= j < |gs| ==> GroupFits(gs[j])
  {
    forall j | 0 <= j < |gs| ensures GroupFits(gs[j]) {
      var k := EntInAll(gs, j);
      var e := AllEnts(gs)[k];
      assert RefersTo(l, e, e.name, e.kind);
      InodeFits(l, e.inum - 1);
      assert GroupOk(gs[j]);
    }
  }

  lemma {:induction false} ListingParses(
    l: Layout, gs: seq<Group>, lo: nat, hi: nat, p: nat, q: nat, raw: bytes, ds: seq<Dirent>)
    requires GroupsOk(l.groups) && PositionsFit(l) && lo <= hi <= |l.groups| && gs == l.groups[lo..hi] && GroupsOk(gs)
    requires p == GroupPos(l.groups, lo) && q == GroupPos(l.groups, hi) && Refer(l, AllEnts(gs))
    requires raw == DirTable(l) && ds == DirentsOf(AllEnts(gs))
    ensures p <= q <= |raw| && ParseListing(raw[p..q]) == Some(ds)
  {
    GroupsAt(l, gs, lo, hi, p, q);
    GroupsFit(l, gs);
    ParseListingBytes(gs);
  }

  /** Following a directory's reference finds its listing. */
  lemma {:induction false} ListingIsRead(z: Codec, l: Layout, r: Rec, dirs: bytes)
    requires IsCodec(z) && GroupsOk(l.groups) && PositionsFit(l) && r.DirRec? && IsListing(l, r)
    requires Refer(l, Ents(l, r)) && DirsOnDisk(z, l) <= dirs
    ensures Listing(z, dirs, Decoded(r)) == Some(DirentsOf(Ents(l, r)))
  {
    hide Listing, Decoded, DirTable, Pack;
    var gs := l.groups[r.lo..r.hi];
    ListingTakesBytes(l.groups, r.lo, r.hi);
    assert GroupsOk(gs) && AllEnts(gs) == Ents(l, r);
    if r.count == 0 {
      NoEntries(z, dirs, r);
      assert DirentsOf(AllEnts(gs)) == [];
    } else {
      EntriesAreRead(z, l, r, dirs, DirTable(l), gs, DirentsOf(AllEnts(gs)));
    }
  }

  lemma {:induction false} NoEntries(z: Codec, dirs: bytes, r: Rec)
    requires r.DirRec? && r.size == 0
    ensures Listing(z, dirs, Decoded(r)) == Some([])
  {
  }

  lemma {:induction false} EntriesAreRead(
    z: Codec, l: Layout, r: Rec, dirs: bytes, raw: bytes, gs: seq<Group>, ds: seq<Dirent>)
    requires IsCodec(z) && GroupsOk(l.groups) && PositionsFit(l) && r.DirRec? && r.count > 0 && r.size > 0
    requires r.lo <= r.hi <= |l.groups| && gs == l.groups[r.lo..r.hi] && GroupsOk(gs) && Refer(l, AllEnts(gs))
    requires r.listing == GroupPos(l.groups, r.lo) && r.listing + r.size == GroupPos(l.groups, r.hi)
    requires raw == DirTable(l) && Pack(z, raw, true) <= dirs && ds == DirentsOf(AllEnts(gs))
    ensures Listing(z, dirs, Decoded(r)) == Some(ds)
  {
    hide *;
    ListingParses(l, gs, r.lo, r.hi, r.listing, r.listing + r.size, raw, ds);
    EntriesFound(z, dirs, r, raw, ds);
  }

  lemma {:induction false} EntriesFound(z: Codec, dirs: bytes, r: Rec, raw: bytes, ds: seq<Dirent>)
    requires IsCodec(z) && Pack(z, raw, true) <= dirs
    requires r.DirRec? && r.count > 0 && r.size > 0 && r.listing + r.size <= |raw|
    requires ParseListing(raw[r.listing..r.listing + r.size]) == Some(ds)
    ensures Listing(z, dirs, Decoded(r)) == Some(ds)
  {
    var s := FollowIn(z, dirs, raw, r.listing);
    assert s[..r.size] == raw[r.listing..r.listing + r.size] by {
      assert raw[r.listing..][..r.size] == raw[r.listing..r.listing + r.size];
    }
    ListingIs(z, dirs, Decoded(r), s, ds);
  }

  /** Following a reference into a table that something follows. */
  lemma {:induction false} FollowIn(z: Codec, dirs: bytes, raw: bytes, at: nat) returns (s: bytes)
    requires IsCodec(z) && Pack(z, raw, true) <= dirs && at <= |raw|
    ensures Follow(z, dirs, RefBlock(at), RefOffset(at)) == Some(s) && raw[at..] <= s
  {
    var rest := dirs[|Pack(z, raw, true)|..];
    assert dirs == Pack(z, raw, true) + rest;
    FollowReference(z, raw, at, rest);
    s := raw[at..] + Unpack(z, rest);
  }

  lemma {:induction false} ListingIs(z: Codec, dirs: bytes, i: Inode, s: bytes, ds: seq<Dirent>)
    requires i.DirInode? && i.fileSize > 3 && Follow(z, dirs, i.block, i.offset) == Some(s)
    requires |s| >= i.fileSize - 3 && ParseListing(s[..i.fileSize - 3]) == Some(ds)
    ensures Listing(z, dirs, i) == Some(ds)
  {
  }

  /** Following an inode's reference finds its record, as the fixups completed it. */
  lemma {:induction false} InodeIsRead(z: Codec, bs: nat, l: Layout, i: nat)
    requires IsCodec(z) && GroupsOk(l.groups) && i < |l.recs| && bs > 0 && RecFits(l.recs[i], bs)
    ensures InodeAt(z, bs, InodesOnDisk(z, l), RefBlock(InodePos(l.recs, i)), RefOffset(InodePos(l.recs, i)))
      == Some(Decoded(l.recs[i]))
  {
    var p := InodePos(l.recs, i);
    var s := FollowInode(z, l, i, p);
    ParseAtStart(l.recs[i], s, bs);
  }

  lemma {:induction false} ParseAtStart(r: Rec, s: bytes, bs: nat)
    requires bs > 0 && RecFits(r, bs) && FixedBytes(r) <= s
    ensures ParseInode(s, bs) == Some(Decoded(r))
  {
    var b := FixedBytes(r);
    assert s == b + s[|b|..];
    ParseFixed(r, s[|b|..], bs);
  }
}
