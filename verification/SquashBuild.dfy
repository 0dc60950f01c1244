/** The steps of the squashfs writer, on values: what one data block, one fragment, one inode or one
    directory group adds to the layout and to the list of fixups. */
module SquashBuild {
  import opened Options
  import opened Arith
  import opened SquashBytes
  import opened SquashMeta
  import opened SquashInode
  import opened SquashDir
  import opened SquashData
  import opened SquashTree

  // ----- data -----

  function WithBlock(z: Codec, d: Data, block: bytes): Data {
    d.(image := d.image + Stored(z, block).0)
  }

  function Flushed(z: Codec, d: Data): Data {
    var (w, size) := Stored(z, d.pending);
    Data(d.image + w, d.frags + [Frag(|d.image|, size)], d.contents + [d.pending], [])
  }

  function Collected(d: Data, tail: bytes): Data {
    d.(pending := d.pending + tail)
  }

  lemma {:induction false} BlockKeeps(z: Codec, bs: nat, d: Data, block: bytes)
    requires DataOk(z, bs, d)
    ensures DataOk(z, bs, WithBlock(z, d, block)) && Grows(d, WithBlock(z, d, block))
  {
    var e := WithBlock(z, d, block);
    forall i | 0 <= i < |e.frags| ensures FragOk(z, bs, e, i) {
      assert FragOk(z, bs, d, i);
      ReadBlockMono(z, d.image, e.image, d.frags[i].start, d.frags[i].size);
    }
  }

  /** A fragment block that is flushed can be read from then on. */
  lemma {:induction false} FlushKeeps(z: Codec, bs: nat, d: Data)
    requires IsCodec(z) && DataOk(z, bs, d)
    ensures DataOk(z, bs, Flushed(z, d)) && Grows(d, Flushed(z, d))
  {
    var e := Flushed(z, d);
    var (w, size) := Stored(z, d.pending);
    ReadStored(z, d.image, d.pending, []);
    assert d.image + w + [] == e.image;
    forall i | 0 <= i < |e.frags| ensures FragOk(z, bs, e, i) {
      if i < |d.frags| {
        assert FragOk(z, bs, d, i);
        ReadBlockMono(z, d.image, e.image, d.frags[i].start, d.frags[i].size);
      }
    }
  }

  lemma {:induction false} CollectKeeps(z: Codec, bs: nat, d: Data, tail: bytes)
    requires DataOk(z, bs, d) && |d.pending| + |tail| <= bs
    ensures DataOk(z, bs, Collected(d, tail)) && Grows(d, Collected(d, tail))
  {
    var e := Collected(d, tail);
    forall i | 0 <= i < |e.frags| ensures FragOk(z, bs, e, i) {
      assert FragOk(z, bs, d, i);
    }
  }

  lemma {:induction false} NoBlocks(z: Codec, image: bytes, start: nat, content: bytes)
    ensures ReadBlocks(z, image, start, []) == Some(content[..0]) && Stride([]) == 0
  {
  }

  /** One more full block of a file. */
  lemma {:induction false} StreamBlock(z: Codec, image: bytes, start: nat, sizes: seq<nat>, s: bytes, block: bytes)
    requires IsCodec(z) && |block| < RAW_BIT && start + Stride(sizes) == |image|
    requires ReadBlocks(z, image, start, sizes) == Some(s)
    ensures var (w, size) := Stored(z, block);
      && ReadBlocks(z, image + w, start, sizes + [size]) == Some(s + block)
      && start + Stride(sizes + [size]) == |image + w| && size < 2 * RAW_BIT
  {
    var (w, size) := Stored(z, block);
    ReadBlocksMono(z, image, image + w, start, sizes);
    ReadStored(z, image, block, []);
    assert image + w + [] == image + w;
    assert (sizes + [size])[..|sizes|] == sizes;
    assert size % RAW_BIT == |w|;
  }

  /** The blocks and the tail together hold the file. */
  lemma {:induction false} BlocksAndTail(z: Codec, bs: nat, d: Data, p: Place, content: bytes, done: nat)
    requires bs > 0 && done == |p.sizes| * bs && done <= |content| < done + bs
    requires ReadBlocks(z, d.image, p.start, p.sizes) == Some(content[..done])
    requires TailHolds(d, p, content[done..]) && SUPERBLOCK <= p.start <= |d.image|
    requires forall i :: 0 <= i < |p.sizes| ==> p.sizes[i] < 2 * RAW_BIT
    ensures Holds(z, bs, d, p, content)
  {
    DivModUnique(|content|, bs, |p.sizes|, |content| - done);
  }

  // ----- pieces -----

  lemma {:induction false} AppendPiece(ps: seq<Piece>, p: Piece)
    ensures Raw(ps + [p]) == Raw(ps) + p.raw
    ensures Patches(ps + [p]) == Patches(ps) + Shift(p.patches, |Raw(ps)|)
  {
    assert (ps + [p])[..|ps|] == ps;
  }

  lemma {:induction false} AllEntsAppend(gs: seq<Group>, g: Group)
    ensures AllEnts(gs + [g]) == AllEnts(gs) + g.ents
    decreases |gs|
  {
    if gs == [] {
      assert gs + [g] == [g];
      assert [g][1..] == [];
    } else {
      assert (gs + [g])[1..] == gs[1..] + [g];
      AllEntsAppend(gs[1..], g);
    }
  }

  // ----- fixups -----

  datatype EntryFixup = EntryFixup(dirRawOffset: nat, firstInodeNum: nat)
  datatype InodeFixup = InodeFixup(inodeRawOffset: nat, dirRawPos: nat)

  predicate Known(fx: seq<EntryFixup>, pos: map<nat, nat>) {
    forall i :: 0 <= i < |fx| ==> fx[i].firstInodeNum in pos
  }

  /** What the pass over `dirEntryFixups` writes. */
  function EntryPatches(fx: seq<EntryFixup>, pos: map<nat, nat>): (ps: seq<Patch>)
    requires Known(fx, pos)
    ensures |ps| == |fx|
  {
    seq(|fx|, i requires 0 <= i < |fx| => Patch(fx[i].dirRawOffset, LE(RefBlock(pos[fx[i].firstInodeNum]), 4)))
  }

  /** What the pass over `dirInodeFixups` writes. */
  function InodePatches(fx: seq<InodeFixup>): seq<Patch> {
    if fx == [] then []
    else
      var f := fx[|fx| - 1];
      InodePatches(fx[..|fx| - 1]) + DirPatches(f.inodeRawOffset, f.dirRawPos)
  }

  lemma {:induction false} EntryPatchesGrow(fx: seq<EntryFixup>, pos: map<nat, nat>, f: EntryFixup)
    requires Known(fx, pos) && f.firstInodeNum in pos
    ensures Known(fx + [f], pos)
    ensures EntryPatches(fx + [f], pos) ==
      EntryPatches(fx, pos) + [Patch(f.dirRawOffset, LE(RefBlock(pos[f.firstInodeNum]), 4))]
  {
  }

  lemma {:induction false} EntryPatchesKeep(fx: seq<EntryFixup>, pos: map<nat, nat>, n: nat, p: nat)
    requires Known(fx, pos) && n !in pos
    ensures Known(fx, pos[n := p]) && EntryPatches(fx, pos[n := p]) == EntryPatches(fx, pos)
  {
  }

  lemma {:induction false} InodePatchesGrow(fx: seq<InodeFixup>, f: InodeFixup)
    ensures InodePatches(fx + [f]) == InodePatches(fx) + DirPatches(f.inodeRawOffset, f.dirRawPos)
  {
    assert (fx + [f])[..|fx|] == fx;
  }

  lemma {:induction false} ShiftDirPatches(at: nat, listing: nat, d: nat)
    ensures Shift(DirPatches(at, listing), d) == DirPatches(at + d, listing)
  {
  }

  // ----- entries -----

  /** `inodeInfo`. */
  datatype Child = Child(inum: nat, kind: nat, name: bytes)

  function EntOf(recs: seq<Rec>, c: Child): Ent
    requires ChildOk(recs, c)
  {
    Ent(c.inum, InodePos(recs, c.inum - 1), c.kind, c.name)
  }

  /** Children as the walk collects them: known inodes, in table order, with names that can be stored. */
  ghost predicate ChildrenOk(recs: seq<Rec>, cs: seq<Child>) {
    && (forall i :: 0 <= i < |cs| ==> ChildOk(recs, cs[i]))
    && (forall i, j :: 0 <= i < j < |cs| ==> cs[i].inum < cs[j].inum)
  }

  predicate ChildOk(recs: seq<Rec>, c: Child) {
    1 <= c.inum <= |recs| && c.kind < 65536 && 0 < |c.name| <= 65536
  }

  function EntsOf(recs: seq<Rec>, cs: seq<Child>): (es: seq<Ent>)
    requires forall i :: 0 <= i < |cs| ==> ChildOk(recs, cs[i])
    ensures |es| == |cs| && forall i :: 0 <= i < |cs| ==> es[i] == EntOf(recs, cs[i])
  {
    seq(|cs|, i requires 0 <= i < |cs| => EntOf(recs, cs[i]))
  }

  lemma {:induction false} SameBlock(x: nat, y: nat, k: nat)
    requires x + 24 * k <= y && x / META == y / META
    ensures k < 342
  {
  }

  /** Inodes in one metadata block have numbers less than 342 apart: the difference fits int16. */
  lemma {:induction false} DeltaFits(recs: seq<Rec>, a: Child, b: Child)
    requires ChildOk(recs, a) && ChildOk(recs, b) && a.inum <= b.inum
    requires InodePos(recs, a.inum - 1) / META == InodePos(recs, b.inum - 1) / META
    ensures b.inum - a.inum < 342 && EntOk(EntOf(recs, a), EntOf(recs, b))
  {
    InodesTakeBytes(recs, a.inum - 1, b.inum - 1);
    SameBlock(EntOf(recs, a).pos, EntOf(recs, b).pos, b.inum - a.inum);
  }

  // ----- the writer's buffers against the layout -----

  ghost predicate PosOk(pos: map<nat, nat>, recs: seq<Rec>) {
    && (forall n: nat :: n in pos <==> 1 <= n <= |recs|)
    && (forall n: nat :: n in pos ==> pos[n] == InodePos(recs, n - 1))
  }

  /** The writer's side of the inode table and of the directory table. */
  datatype Inodes = Inodes(raw: bytes, pos: map<nat, nat>, fixups: seq<InodeFixup>, pieces: seq<Piece>)
  datatype Dirs = Dirs(raw: bytes, fixups: seq<EntryFixup>, pieces: seq<Piece>)

  ghost predicate ArePieces(ps: seq<Piece>, recs: seq<Rec>) {
    |ps| == |recs| && forall i {:trigger ps[i], recs[i]} :: 0 <= i < |ps| ==> ps[i] == PieceOf(recs[i])
  }

  ghost predicate AreGroupPieces(ps: seq<Piece>, gs: seq<Group>) {
    |ps| == |gs| && forall i {:trigger ps[i], gs[i]} :: 0 <= i < |ps| ==> GroupOk(gs[i]) && ps[i] == GroupPiece(gs[i])
  }

  lemma {:induction false} TheseArePieces(ps: seq<Piece>, recs: seq<Rec>)
    requires ArePieces(ps, recs)
    ensures ps == InodePieces(recs)
  {
    forall i | 0 <= i < |ps| ensures ps[i] == InodePieces(recs)[i] {
      assert ps[i] == PieceOf(recs[i]);
    }
  }

  lemma {:induction false} TheseAreGroupPieces(ps: seq<Piece>, gs: seq<Group>)
    requires AreGroupPieces(ps, gs)
    ensures GroupsOk(gs) && ps == GroupPieces(gs)
  {
    forall i | 0 <= i < |ps| ensures GroupOk(gs[i]) && ps[i] == GroupPiece(gs[i]) {
      assert gs[i] == gs[i] && ps[i] == ps[i];
    }
  }

  /** The raw inode table, the recorded positions and the pending fixups belong to these records. */
  ghost predicate InodesOk(t: Inodes, recs: seq<Rec>) {
    match t
    case Inodes(raw, pos, fx, ps) =>
      ArePieces(ps, recs) && raw == Raw(ps) && PosOk(pos, recs) && InodePatches(fx) == Patches(ps)
  }

  /** The raw directory table and the pending fixups belong to these groups. */
  ghost predicate DirsOk(t: Dirs, pos: map<nat, nat>, gs: seq<Group>) {
    match t
    case Dirs(raw, fx, ps) =>
      && GroupsOk(gs) && AreGroupPieces(ps, gs) && raw == Raw(ps)
      && Known(fx, pos) && EntryPatches(fx, pos) == Patches(ps)
  }

  /** The fixup a record asks for. */
  function FixupsOf(r: Rec, at: nat): seq<InodeFixup> {
    if r.DirRec? && r.count > 0 then [InodeFixup(at + RefField(r.size), r.listing)] else []
  }

  lemma {:induction false} AddPos(pos: map<nat, nat>, recs: seq<Rec>, r: Rec)
    requires PosOk(pos, recs)
    ensures PosOk(pos[|recs| + 1 := InodePos(recs, |recs|)], recs + [r])
  {
    var more, next := recs + [r], pos[|recs| + 1 := InodePos(recs, |recs|)];
    forall n: nat | n in next ensures next[n] == InodePos(more, n - 1) {
      InodePosMono(recs, more, n - 1);
    }
  }

  lemma {:induction false} AddFixups(fx: seq<InodeFixup>, r: Rec, at: nat)
    ensures InodePatches(fx + FixupsOf(r, at)) == InodePatches(fx) + Shift(RecPatches(r), at)
  {
    if r.DirRec? && r.count > 0 {
      InodePatchesGrow(fx, InodeFixup(at + RefField(r.size), r.listing));
      ShiftDirPatches(RefField(r.size), r.listing, at);
    } else {
      assert fx + [] == fx;
      assert Shift([], at) == [];
    }
  }

  lemma {:induction false} InodeEnd(i: Inodes, recs: seq<Rec>)
    requires InodesOk(i, recs)
    ensures |i.raw| == InodePos(recs, |recs|)
  {
    TheseArePieces(i.pieces, recs);
    InodePosIsOffset(recs, |recs|);
    OffsetOfEnd(i.pieces);
  }

  lemma {:induction false} DirEnd(d: Dirs, pos: map<nat, nat>, gs: seq<Group>)
    requires DirsOk(d, pos, gs)
    ensures |d.raw| == GroupPos(gs, |gs|)
  {
    TheseAreGroupPieces(d.pieces, gs);
    GroupPosIsOffset(gs, |gs|);
    OffsetOfEnd(d.pieces);
  }

  /** Appending an inode with its fixup keeps the table and the fixup list together. */
  lemma {:induction false} AddInode(t: Inodes, recs: seq<Rec>, r: Rec)
    requires InodesOk(t, recs)
    ensures var n := |t.raw|;
      InodesOk(Inodes(t.raw + RecBytes(r), t.pos[|recs| + 1 := n], t.fixups + FixupsOf(r, n), t.pieces + [PieceOf(r)]),
        recs + [r])
  {
    InodeEnd(t, recs);
    AppendPiece(t.pieces, PieceOf(r));
    AddPos(t.pos, recs, r);
    AddFixups(t.fixups, r, |t.raw|);
  }

  lemma {:induction false} InodeKeepsDirs(t: Dirs, pos: map<nat, nat>, gs: seq<Group>, recs: seq<Rec>, p: nat)
    requires DirsOk(t, pos, gs) && PosOk(pos, recs)
    ensures DirsOk(t, pos[|recs| + 1 := p], gs)
  {
    EntryPatchesKeep(t.fixups, pos, |recs| + 1, p);
  }

  /** So does appending a group with its fixup. */
  lemma {:induction false} AddGroup(t: Dirs, pos: map<nat, nat>, gs: seq<Group>, g: Group)
    requires DirsOk(t, pos, gs) && GroupOk(g)
    requires g.ents[0].inum in pos && pos[g.ents[0].inum] == g.ents[0].pos
    ensures var fx := t.fixups + [EntryFixup(|t.raw| + 4, g.ents[0].inum)];
      DirsOk(Dirs(t.raw + GroupBytes(g, 0), fx, t.pieces + [GroupPiece(g)]), pos, gs + [g])
  {
    AppendPiece(t.pieces, GroupPiece(g));
    assert Shift(GroupPiece(g).patches, |t.raw|) == [Patch(|t.raw| + 4, LE(RefBlock(g.ents[0].pos), 4))];
    EntryPatchesGrow(t.fixups, pos, EntryFixup(|t.raw| + 4, g.ents[0].inum));
  }

  lemma {:induction false} ListingSpan(t: Dirs, gs: seq<Group>, t': Dirs, gs': seq<Group>, pos: map<nat, nat>)
    requires DirsOk(t, pos, gs) && DirsOk(t', pos, gs') && gs <= gs'
    ensures GroupPos(gs', |gs|) == |t.raw| && GroupPos(gs', |gs'|) == |t'.raw|
  {
    DirEnd(t, pos, gs);
    DirEnd(t', pos, gs');
    GroupPosMono(gs, gs', |gs|);
  }

  lemma {:induction false} SomeChildren(recs: seq<Rec>, cs: seq<Child>, lo: nat, hi: nat)
    requires ChildrenOk(recs, cs) && lo <= hi <= |cs|
    ensures ChildrenOk(recs, cs[lo..hi]) && EntsOf(recs, cs[lo..hi]) == EntsOf(recs, cs)[lo..hi]
  {
  }

  lemma {:induction false} NextGroup(gs: seq<Group>, es: seq<Ent>, lo: nat, hi: nat)
    requires lo <= hi <= |es| && AllEnts(gs) == es[..lo]
    ensures AllEnts(gs + [Group(es[lo..hi])]) == es[..hi]
  {
    AllEntsAppend(gs, Group(es[lo..hi]));
    assert es[..hi] == es[..lo] + es[lo..hi];
  }

  lemma {:induction false} EntsSnoc(first: nat, es: seq<Ent>, e: Ent)
    requires forall i :: 0 <= i < |es| ==> Writable(first, es[i])
    requires Writable(first, e)
    ensures forall i :: 0 <= i < |es + [e]| ==> Writable(first, (es + [e])[i])
    ensures EntsBytes(first, es + [e]) == EntsBytes(first, es) + (Encode(EntFields(first, e)) + e.name)
    decreases |es|
  {
    var all := es + [e];
    assert forall i :: 0 <= i < |all| ==> Writable(first, all[i]);
    if es == [] {
      assert all[1..] == [];
      assert EntsBytes(first, all) == Encode(EntFields(first, e)) + e.name + [];
    } else {
      assert all[1..] == es[1..] + [e];
      EntsSnoc(first, es[1..], e);
    }
  }

  /** The children of one group, as the writer cuts it. */
  lemma {:induction false} GroupOfChildren(recs: seq<Rec>, cs: seq<Child>, lo: nat, hi: nat)
    requires ChildrenOk(recs, cs) && lo < hi <= |cs| && hi - lo <= 256
    requires forall i :: lo <= i < hi ==> ChildOk(recs, cs[i])
    requires forall i :: lo <= i < hi ==>
      InodePos(recs, cs[i].inum - 1) / META == InodePos(recs, cs[lo].inum - 1) / META
    ensures GroupOk(Group(EntsOf(recs, cs[lo..hi])))
  {
    var g := Group(EntsOf(recs, cs[lo..hi]));
    forall i | 0 <= i < |g.ents| ensures EntOk(g.ents[0], g.ents[i]) {
      DeltaFits(recs, cs[lo], cs[lo + i]);
    }
  }
}
