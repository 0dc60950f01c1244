/** Walking a squashfs image: following the root reference and every reference below it gives the tree
    back that was written. */
module SquashWalk {
  import opened Options
  import opened SquashBytes
  import opened SquashMeta
  import opened SquashInode
  import opened SquashDir
  import opened SquashData
  import opened SquashTree
  import opened SquashRead

  datatype Found = Found(node: Node, inum: nat, kind: nat)

  /** What a reader asks of an image: the inode behind a reference, the entries of a directory inode,
      the bytes at a place. */
  datatype View = View(
    inode: (nat, nat) -> Option<Inode>,
    listing: Inode -> Option<seq<Dirent>>,
    content: (Place, nat) -> Option<bytes>)

  function ViewOf(z: Codec, bs: nat, im: Image): View
    requires bs > 0
  {
    View((block: nat, offset: nat) => InodeAt(z, bs, im.inodes, block, offset),
         i => Listing(z, im.dirs, i),
         (p: Place, n: nat) => ReadContent(z, bs, im.data, im.frags, p, n))
  }

  /** The node behind an inode reference, to a given depth. */
  function ReadNode(v: View, block: nat, offset: nat, depth: nat): Option<Found>
    decreases depth, 0
  {
    if depth == 0 then None
    else
      match v.inode(block, offset)
      case None => None
      case Some(FileInode(attr, inum, start, frag, fragOff, size, blocks)) => (
        match v.content(Place(start, blocks, frag, fragOff), size)
        case None => None
        case Some(content) => Some(Found(File(attr, content), inum, 2)))
      case Some(LinkInode(mtime, inum, target)) => Some(Found(Link(mtime, target), inum, 3))
      case Some(DirInode(attr, inum, b, n, fs, o)) => (
        match v.listing(DirInode(attr, inum, b, n, fs, o))
        case None => None
        case Some(ds) =>
          match ReadEntries(v, ds, depth - 1)
          case None => None
          case Some(entries) => Some(Found(Dir(attr, entries), inum, 1)))
  }

  /** The children of a listing; number and kind of every entry must agree with the inode it names. */
  function ReadEntries(v: View, ds: seq<Dirent>, depth: nat): Option<seq<Entry>>
    decreases depth, 1, |ds|
  {
    if ds == [] then Some([])
    else
      match ReadNode(v, ds[0].block, ds[0].offset, depth)
      case None => None
      case Some(f) =>
        if f.inum != ds[0].inum || f.kind != ds[0].kind then None
        else match ReadEntries(v, ds[1..], depth)
             case None => None
             case Some(rest) => Some([Entry(ds[0].name, f.node)] + rest)
  }

  function Height(t: Node): (h: nat)
    ensures h >= 1
    decreases t, 0
  {
    match t
    case File(_, _) => 1
    case Link(_, _) => 1
    case Dir(_, entries) => 1 + HeightAll(entries)
  }

  function HeightAll(entries: seq<Entry>): nat
    decreases entries, 1
  {
    if entries == [] then 0
    else
      var a, b := Height(entries[0].node), HeightAll(entries[1..]);
      if a > b then a else b
  }

  // ----- what the view shows of a layout -----

  ghost predicate ShowsInode(v: View, z: Codec, bs: nat, l: Layout, t: Node, inum: nat) {
    Stores(z, bs, l, t, inum) && TreeFits(t) ==>
      var p := InodePos(l.recs, inum - 1);
      v.inode(RefBlock(p), RefOffset(p)) == Some(Decoded(l.recs[inum - 1]))
  }

  ghost predicate ShowsListing(v: View, l: Layout, r: Rec)
    requires GroupsOk(l.groups) && r.DirRec?
  {
    IsListing(l, r) && Refer(l, Ents(l, r)) ==> v.listing(Decoded(r)) == Some(DirentsOf(Ents(l, r)))
  }

  ghost predicate ShowsContent(v: View, z: Codec, bs: nat, l: Layout, p: Place, content: bytes) {
    Holds(z, bs, l.data, p, content) ==> v.content(p, |content|) == Some(content)
  }

  ghost predicate Shows(v: View, z: Codec, bs: nat, l: Layout) {
    && GroupsOk(l.groups)
    && (forall t, inum :: ShowsInode(v, z, bs, l, t, inum))
    && (forall r: Rec :: r.DirRec? ==> ShowsListing(v, l, r))
    && (forall p, content :: ShowsContent(v, z, bs, l, p, content))
  }

  /** The image holds the layout; other tables may follow the data. */
  ghost predicate IsImageOf(im: Image, z: Codec, l: Layout)
    requires GroupsOk(l.groups)
  {
    && Under(l.data.image, im.data) && im.frags == l.data.frags
    && im.inodes == InodesOnDisk(z, l) && DirsOnDisk(z, l) <= im.dirs
  }

  lemma {:induction false} ShowsOneInode(z: Codec, bs: nat, l: Layout, im: Image, t: Node, inum: nat)
    requires IsCodec(z) && LayoutOk(z, bs, l) && PositionsFit(l) && IsImageOf(im, z, l)
    ensures ShowsInode(ViewOf(z, bs, im), z, bs, l, t, inum)
  {
    hide PositionsFit, InodeAt, InodePos, RefBlock, RefOffset, Decoded, InodesOnDisk, TreeFits, RecFits, FragOk,
      Numbered, Listing, ReadContent, DirsOnDisk, StoresAll, Holds;
    if Stores(z, bs, l, t, inum) && TreeFits(t) {
      StoredFits(z, bs, l, t, inum);
      InodeIsRead(z, bs, l, inum - 1);
    }
  }

  lemma {:induction false} ShowsOneContent(z: Codec, bs: nat, l: Layout, im: Image, p: Place, content: bytes)
    requires IsCodec(z) && LayoutOk(z, bs, l) && PositionsFit(l) && l.data.pending == [] && IsImageOf(im, z, l)
    ensures ShowsContent(ViewOf(z, bs, im), z, bs, l, p, content)
  {
    if Holds(z, bs, l.data, p, content) {
      ReadBack(z, bs, l.data, p, content);
      assert Behind(l.data.frags, p) by {
        if p.frag < |l.data.frags| {
          assert FragOk(z, bs, l.data, p.frag);
        }
      }
      ReadContentUnder(z, bs, l.data.image, im.data, im.frags, p, |content|);
    }
  }

  lemma {:induction false} ShowsOneListing(z: Codec, bs: nat, l: Layout, im: Image, r: Rec)
    requires IsCodec(z) && LayoutOk(z, bs, l) && PositionsFit(l) && IsImageOf(im, z, l) && r.DirRec?
    ensures ShowsListing(ViewOf(z, bs, im), l, r)
  {
    if IsListing(l, r) && Refer(l, Ents(l, r)) {
      ListingIsRead(z, l, r, im.dirs);
    }
  }

  /** The image of a finished layout shows all of it. */
  lemma {:induction false} ImageShows(z: Codec, bs: nat, l: Layout, im: Image)
    requires IsCodec(z) && LayoutOk(z, bs, l) && PositionsFit(l) && l.data.pending == [] && IsImageOf(im, z, l)
    ensures Shows(ViewOf(z, bs, im), z, bs, l)
  {
    hide ShowsInode, ShowsListing, ShowsContent, IsImageOf, PositionsFit, ViewOf;
    forall t, inum: nat ensures ShowsInode(ViewOf(z, bs, im), z, bs, l, t, inum) {
      ShowsOneInode(z, bs, l, im, t, inum);
    }
    forall r: Rec | r.DirRec? ensures ShowsListing(ViewOf(z, bs, im), l, r) {
      ShowsOneListing(z, bs, l, im, r);
    }
    forall p, content ensures ShowsContent(ViewOf(z, bs, im), z, bs, l, p, content) {
      ShowsOneContent(z, bs, l, im, p, content);
    }
  }

  lemma {:induction false} StoredFits(z: Codec, bs: nat, l: Layout, t: Node, inum: nat)
    requires LayoutOk(z, bs, l) && PositionsFit(l) && Stores(z, bs, l, t, inum) && TreeFits(t)
    ensures RecFits(l.recs[inum - 1], bs)
  {
    match t
    case File(_, _) => FileFits(z, bs, l, t, inum);
    case Link(_, _) => LinkFits(z, bs, l, t, inum);
    case Dir(_, _) => DirFits(z, bs, l, l.recs[inum - 1], inum - 1);
  }

  // ----- the theorem -----

  /** The reference to inode `inum` leads to the tree. */
  ghost predicate ReadsAs(v: View, l: Layout, inum: nat, t: Node, depth: nat)
    requires 1 <= inum <= |l.recs|
  {
    var p := InodePos(l.recs, inum - 1);
    ReadNode(v, RefBlock(p), RefOffset(p), depth) == Some(Found(t, inum, KindOf(t)))
  }

  lemma {:induction false} ReadLeaf(v: View, z: Codec, bs: nat, l: Layout, t: Node, inum: nat, depth: nat)
    requires Shows(v, z, bs, l) && Stores(z, bs, l, t, inum) && TreeFits(t) && depth > 0 && !t.Dir?
    ensures ReadsAs(v, l, inum, t, depth)
  {
    var r := l.recs[inum - 1];
    assert ShowsInode(v, z, bs, l, t, inum);
    if t.File? {
      assert ShowsContent(v, z, bs, l, Place(r.start, r.blocks, r.frag, r.fragOff), t.content);
    }
  }

  /** The inode is found, with these entries. */
  ghost predicate FindsDir(v: View, l: Layout, inum: nat, es: seq<Ent>)
    requires 1 <= inum <= |l.recs|
  {
    var p := InodePos(l.recs, inum - 1);
    var d := Decoded(l.recs[inum - 1]);
    v.inode(RefBlock(p), RefOffset(p)) == Some(d) && v.listing(d) == Some(DirentsOf(es))
  }

  lemma {:induction false} FindDir(v: View, z: Codec, bs: nat, l: Layout, t: Node, inum: nat) returns (es: seq<Ent>)
    requires Shows(v, z, bs, l) && Stores(z, bs, l, t, inum) && t.Dir? && TreeFits(t)
    ensures l.recs[inum - 1].DirRec? && l.recs[inum - 1].attr == t.attr
    ensures FindsDir(v, l, inum, es) && StoresAll(z, bs, l, t.entries, es)
  {
    var r := l.recs[inum - 1];
    es := Ents(l, r);
    forall i | 0 <= i < |es| ensures RefersTo(l, es[i], es[i].name, es[i].kind) {
      assert RefersTo(l, es[i], t.entries[i].name, KindOf(t.entries[i].node));
    }
    assert ShowsInode(v, z, bs, l, t, inum);
    assert ShowsListing(v, l, r);
  }

  /** A directory reads as its entries do. */
  lemma {:induction false} DirReadsAs(v: View, l: Layout, t: Node, inum: nat, es: seq<Ent>, depth: nat)
    requires t.Dir? && 1 <= inum <= |l.recs| && FindsDir(v, l, inum, es)
    requires l.recs[inum - 1].DirRec? && l.recs[inum - 1].attr == t.attr && l.recs[inum - 1].inum == inum
    requires ReadEntries(v, DirentsOf(es), depth) == Some(t.entries)
    ensures ReadsAs(v, l, inum, t, depth + 1)
  {
  }

  /** Following references from the inode of a stored tree reconstructs the tree. */
  lemma {:induction false} ReadTree(v: View, z: Codec, bs: nat, l: Layout, t: Node, inum: nat, depth: nat)
    requires Shows(v, z, bs, l) && Stores(z, bs, l, t, inum) && TreeFits(t) && Height(t) <= depth
    ensures ReadsAs(v, l, inum, t, depth)
    decreases t, 0
  {
    if t.Dir? {
      ReadDir(v, z, bs, l, t, inum, depth - 1);
    } else {
      ReadLeaf(v, z, bs, l, t, inum, depth);
    }
  }

  lemma {:induction false} ReadDir(v: View, z: Codec, bs: nat, l: Layout, t: Node, inum: nat, depth: nat)
    requires Shows(v, z, bs, l) && Stores(z, bs, l, t, inum) && TreeFits(t) && t.Dir? && HeightAll(t.entries) <= depth
    ensures ReadsAs(v, l, inum, t, depth + 1)
    decreases t.entries, 3
  {
    var es := FindDir(v, z, bs, l, t, inum);
    ReadBelow(v, z, bs, l, t, inum, es, depth);
  }

  lemma {:induction false} ReadBelow(
    v: View, z: Codec, bs: nat, l: Layout, t: Node, inum: nat, es: seq<Ent>, depth: nat)
    requires Shows(v, z, bs, l) && t.Dir? && TreeFits(t) && HeightAll(t.entries) <= depth
    requires 1 <= inum <= |l.recs| && FindsDir(v, l, inum, es) && StoresAll(z, bs, l, t.entries, es)
    requires l.recs[inum - 1].DirRec? && l.recs[inum - 1].attr == t.attr && l.recs[inum - 1].inum == inum
    ensures ReadsAs(v, l, inum, t, depth + 1)
    decreases t.entries, 2
  {
    ReadAll(v, z, bs, l, t.entries, es, depth);
    DirReadsAs(v, l, t, inum, es, depth);
  }

  lemma {:induction false} ReadFirst(
    v: View, l: Layout, e: Ent, n: Entry, ds: seq<Dirent>, rest: seq<Entry>, depth: nat)
    requires RefersTo(l, e, n.name, KindOf(n.node))
    requires ReadsAs(v, l, e.inum, n.node, depth) && ReadEntries(v, ds, depth) == Some(rest)
    ensures ReadEntries(v, [DirentOf(e)] + ds, depth) == Some([n] + rest)
  {
    assert ([DirentOf(e)] + ds)[1..] == ds;
  }

  lemma {:induction false} ReadAll(v: View, z: Codec, bs: nat, l: Layout, entries: seq<Entry>, es: seq<Ent>, depth: nat)
    requires Shows(v, z, bs, l) && StoresAll(z, bs, l, entries, es) && HeightAll(entries) <= depth
    requires forall i :: 0 <= i < |entries| ==> TreeFits(entries[i].node)
    ensures ReadEntries(v, DirentsOf(es), depth) == Some(entries)
    decreases entries, 1
  {
    if entries != [] {
      assert RefersTo(l, es[0], entries[0].name, KindOf(entries[0].node));
      assert Stores(z, bs, l, entries[0].node, es[0].inum);
      ReadTree(v, z, bs, l, entries[0].node, es[0].inum, depth);
      StoresTail(z, bs, l, entries, es);
      ReadAll(v, z, bs, l, entries[1..], es[1..], depth);
      ReadFirst(v, l, es[0], entries[0], DirentsOf(es[1..]), entries[1..], depth);
      assert DirentsOf(es) == [DirentOf(es[0])] + DirentsOf(es[1..]);
      assert entries == [entries[0]] + entries[1..];
    }
  }

  lemma {:induction false} StoresTail(z: Codec, bs: nat, l: Layout, entries: seq<Entry>, es: seq<Ent>)
    requires StoresAll(z, bs, l, entries, es) && entries != []
    ensures StoresAll(z, bs, l, entries[1..], es[1..])
  {
    forall i | 0 <= i < |es[1..]|
      ensures RefersTo(l, es[1..][i], entries[1..][i].name, KindOf(entries[1..][i].node))
      ensures Stores(z, bs, l, entries[1..][i].node, es[1..][i].inum)
    {
      assert RefersTo(l, es[i + 1], entries[i + 1].name, KindOf(entries[i + 1].node));
      assert Stores(z, bs, l, entries[i + 1].node, es[i + 1].inum);
    }
  }

  /** The image of a finished layout reads back as the stored tree. */
  lemma {:induction false} ImageReadsBack(z: Codec, bs: nat, l: Layout, im: Image, t: Node, inum: nat, depth: nat)
    requires IsCodec(z) && LayoutOk(z, bs, l) && l.data.pending == [] && IsImageOf(im, z, l)
    requires Stores(z, bs, l, t, inum) && PositionsFit(l) && TreeFits(t) && Height(t) <= depth
    ensures ReadsAs(ViewOf(z, bs, im), l, inum, t, depth)
  {
    ImageShows(z, bs, l, im);
    ReadTree(ViewOf(z, bs, im), z, bs, l, t, inum, depth);
  }
}
