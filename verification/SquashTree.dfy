/** A directory tree stored in a squashfs image, and what a reader makes of it. */
module SquashTree {
  import opened SquashBytes
  import opened SquashMeta
  import opened SquashInode
  import opened SquashDir
  import opened SquashData

  /** The input: the tree below the root, as listed, filtered and sorted. */
  datatype Node =
    | File(attr: Attr, content: bytes)
    | Link(mtime: nat, target: bytes)
    | Dir(attr: Attr, entries: seq<Entry>)
  datatype Entry = Entry(name: bytes, node: Node)

  function KindOf(t: Node): nat {
    match t case File(_, _) => 2 case Link(_, _) => 3 case Dir(_, _) => 1
  }

  /** Everything the walk over the tree has produced. */
  datatype Layout = Layout(recs: seq<Rec>, groups: seq<Group>, data: Data)

  function InodePieces(recs: seq<Rec>): (ps: seq<Piece>)
    ensures |ps| == |recs| && forall i :: 0 <= i < |recs| ==> ps[i] == PieceOf(recs[i])
  {
    seq(|recs|, i requires 0 <= i < |recs| => PieceOf(recs[i]))
  }

  function GroupPieces(gs: seq<Group>): (ps: seq<Piece>)
    ensures |ps| == |gs| && forall i :: 0 <= i < |gs| ==> ps[i] == GroupPiece(gs[i])
  {
    seq(|gs|, i requires 0 <= i < |gs| => GroupPiece(gs[i]))
  }

  /** The raw position of inode number n is that of record n - 1. */
  function InodePos(recs: seq<Rec>, i: nat): nat
    requires i <= |recs|
  {
    if i == 0 then 0 else InodePos(recs, i - 1) + RecLen(recs[i - 1])
  }

  lemma {:induction false} InodePosIsOffset(recs: seq<Rec>, i: nat)
    requires i <= |recs|
    ensures InodePos(recs, i) == Offset(InodePieces(recs), i)
    decreases i
  {
    hide RecBytes, RecPatches, RecLen;
    if i > 0 {
      InodePosIsOffset(recs, i - 1);
      RecSize(recs[i - 1]);
    }
  }

  /** Every inode between two others takes at least 24 bytes. */
  lemma {:induction false} InodesTakeBytes(recs: seq<Rec>, i: nat, j: nat)
    requires i <= j <= |recs|
    ensures InodePos(recs, i) + 24 * (j - i) <= InodePos(recs, j)
    decreases j
  {
    if i < j {
      InodesTakeBytes(recs, i, j - 1);
    }
  }

  function GroupPos(gs: seq<Group>, i: nat): nat
    requires i <= |gs|
  {
    if i == 0 then 0 else GroupPos(gs, i - 1) + GroupLen(gs[i - 1])
  }

  lemma {:induction false} GroupPosIsOffset(gs: seq<Group>, i: nat)
    requires GroupsOk(gs) && i <= |gs|
    ensures GroupPos(gs, i) == Offset(GroupPieces(gs), i)
    decreases i
  {
    if i > 0 {
      GroupPosIsOffset(gs, i - 1);
      GroupSize(gs[i - 1], 0);
    }
  }

  /** Inode numbers follow the order of the table. */
  predicate Numbered(recs: seq<Rec>) {
    forall i :: 0 <= i < |recs| ==> recs[i].inum == i + 1
  }

  ghost predicate LayoutOk(z: Codec, bs: nat, l: Layout) {
    && GroupsOk(l.groups) && DataOk(z, bs, l.data)
    && Numbered(l.recs)
  }

  /** The children of the directory whose record is `r`. */
  function Ents(l: Layout, r: Rec): seq<Ent>
    requires r.DirRec? && r.lo <= r.hi <= |l.groups|
  {
    AllEnts(l.groups[r.lo..r.hi])
  }

  /** The record names its listing. */
  ghost predicate IsListing(l: Layout, r: Rec)
    requires r.DirRec?
  {
    && r.lo <= r.hi <= |l.groups|
    && r.listing == GroupPos(l.groups, r.lo)
    && r.listing + r.size == GroupPos(l.groups, r.hi)
    && |Ents(l, r)| == r.count
  }

  /** An entry refers to a record, at that record's place. */
  ghost predicate RefersTo(l: Layout, e: Ent, name: bytes, kind: nat) {
    && 1 <= e.inum <= |l.recs| && e.pos == InodePos(l.recs, e.inum - 1)
    && e.name == name && e.kind == kind
  }

  /** The tree `t` is stored under inode number `inum`. */
  ghost predicate Stores(z: Codec, bs: nat, l: Layout, t: Node, inum: nat)
    decreases t, 0
  {
    && GroupsOk(l.groups) && 1 <= inum <= |l.recs| && l.recs[inum - 1].inum == inum
    && var r := l.recs[inum - 1];
       match t
       case File(attr, content) =>
         && r.FileRec? && r.attr == attr && r.size == |content|
         && Holds(z, bs, l.data, Place(r.start, r.blocks, r.frag, r.fragOff), content)
       case Link(mtime, target) => r == LinkRec(mtime, inum, target)
       case Dir(attr, entries) =>
         && r.DirRec? && r.attr == attr && r.count == |entries|
         && IsListing(l, r) && StoresAll(z, bs, l, entries, Ents(l, r))
  }

  ghost predicate StoresAll(z: Codec, bs: nat, l: Layout, entries: seq<Entry>, es: seq<Ent>)
    decreases entries, 1
  {
    && |entries| == |es|
    && (forall i :: 0 <= i < |es| ==> RefersTo(l, es[i], entries[i].name, KindOf(entries[i].node)))
    && (forall i :: 0 <= i < |es| ==> Stores(z, bs, l, entries[i].node, es[i].inum))
  }

  // ----- what is written later does not disturb what is stored -----

  ghost predicate Extends(l: Layout, k: Layout) {
    l.recs <= k.recs && l.groups <= k.groups && Grows(l.data, k.data) && GroupsOk(k.groups)
  }

  lemma {:induction false} InodePosMono(recs: seq<Rec>, more: seq<Rec>, i: nat)
    requires recs <= more && i <= |recs|
    ensures InodePos(recs, i) == InodePos(more, i)
    decreases i
  {
    if i > 0 {
      InodePosMono(recs, more, i - 1);
    }
  }

  lemma {:induction false} GroupPosMono(gs: seq<Group>, more: seq<Group>, i: nat)
    requires gs <= more && i <= |gs|
    ensures GroupPos(gs, i) == GroupPos(more, i)
    decreases i
  {
    if i > 0 {
      GroupPosMono(gs, more, i - 1);
    }
  }

  lemma {:induction false} StoresMono(z: Codec, bs: nat, l: Layout, k: Layout, t: Node, inum: nat)
    requires Stores(z, bs, l, t, inum) && Extends(l, k)
    ensures Stores(z, bs, k, t, inum)
    decreases t, 0
  {
    var r := l.recs[inum - 1];
    assert k.recs[inum - 1] == r;
    match t
    case File(attr, content) =>
      HoldsMono(z, bs, l.data, k.data, Place(r.start, r.blocks, r.frag, r.fragOff), content);
    case Link(_, _) =>
    case Dir(attr, entries) =>
      assert k.groups[r.lo..r.hi] == l.groups[r.lo..r.hi];
      GroupPosMono(l.groups, k.groups, r.lo);
      GroupPosMono(l.groups, k.groups, r.hi);
      StoresAllMono(z, bs, l, k, entries, Ents(l, r));
  }

  lemma {:induction false} StoresAllMono(z: Codec, bs: nat, l: Layout, k: Layout, entries: seq<Entry>, es: seq<Ent>)
    requires StoresAll(z, bs, l, entries, es) && Extends(l, k)
    ensures StoresAll(z, bs, k, entries, es)
    decreases entries, 1
  {
    forall i | 0 <= i < |es|
      ensures RefersTo(k, es[i], entries[i].name, KindOf(entries[i].node))
      ensures Stores(z, bs, k, entries[i].node, es[i].inum)
    {
      assert RefersTo(l, es[i], entries[i].name, KindOf(entries[i].node));
      InodePosMono(l.recs, k.recs, es[i].inum - 1);
      StoresMono(z, bs, l, k, entries[i].node, es[i].inum);
    }
  }
}
