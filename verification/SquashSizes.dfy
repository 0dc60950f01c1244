/** How much a tree adds to a squashfs image, from the tree and the block size alone (pkg/lib/squashfs/writer.go:
    670-885): the exact number of bytes in the two metadata tables, and how many bytes of data at most. */
module SquashSizes {
  import opened Arith
  import opened SquashBytes
  import opened SquashMeta
  import opened SquashInode
  import opened SquashDir
  import opened SquashData
  import opened SquashTree
  import opened SquashBuild
  import opened SquashCount

  // ----- directory listings -----

  /** Where the group of entry `start` ends: at the first entry whose inode lies in another block, and after 256
      entries at the latest; the entries before `i` belong to it. */
  function GroupStop(ps: seq<nat>, start: nat, i: nat): (stop: nat)
    requires start < i <= |ps|
    ensures i <= stop <= |ps|
    decreases |ps| - i
  {
    if i < |ps| && i - start < 256 && ps[i] / META == ps[start] / META then GroupStop(ps, start, i + 1) else i
  }

  /** Groups from entry `i` on. */
  function GroupsFrom(ps: seq<nat>, i: nat): nat
    requires i <= |ps|
    decreases |ps| - i
  {
    if i == |ps| then 0 else 1 + GroupsFrom(ps, GroupStop(ps, i, i + 1))
  }

  /** The first `n` entries without group headers. */
  function EntriesLen(entries: seq<Entry>, n: nat): nat
    requires n <= |entries|
  {
    if n == 0 then 0 else EntriesLen(entries, n - 1) + 8 + |entries[n - 1].name|
  }

  /** The listing of entries whose inodes stand at these positions. */
  function ListingLen(entries: seq<Entry>, ps: seq<nat>): nat {
    12 * GroupsFrom(ps, 0) + EntriesLen(entries, |entries|)
  }

  // ----- the inode table -----

  /** Where the tree's own inode stands, when the tree is written from position `at` on. */
  function InodeStart(bs: nat, t: Node, at: nat): nat
    requires bs > 0
    decreases t, 0
  {
    match t
    case Dir(_, entries) => EntriesEnd(bs, entries, |entries|, at)
    case _ => at
  }

  /** Where the tree ends in the inode table. */
  function TreeEnd(bs: nat, t: Node, at: nat): nat
    requires bs > 0
    decreases t, 1
  {
    match t
    case File(_, content) => at + 32 + 4 * (|content| / bs)
    case Link(_, target) => at + 24 + |target|
    case Dir(_, entries) =>
      InodeStart(bs, t, at) +
      if IsBasic(ListingLen(entries, Positions(bs, entries, |entries|, at))) then 32 else 40
  }

  /** Where the first `n` entries and all below them end. */
  function EntriesEnd(bs: nat, entries: seq<Entry>, n: nat, at: nat): nat
    requires bs > 0 && n <= |entries|
    decreases entries, n, 0
  {
    if n == 0 then at else TreeEnd(bs, entries[n - 1].node, EntriesEnd(bs, entries, n - 1, at))
  }

  /** Where their own inodes stand. */
  function Positions(bs: nat, entries: seq<Entry>, n: nat, at: nat): (ps: seq<nat>)
    requires bs > 0 && n <= |entries|
    ensures |ps| == n
    decreases entries, n, 1
  {
    if n == 0 then []
    else Positions(bs, entries, n - 1, at) + [InodeStart(bs, entries[n - 1].node, EntriesEnd(bs, entries, n - 1, at))]
  }

  // ----- the directory table -----

  /** What the tree adds to the directory table: its listing and those of the directories below it. */
  function ListingsIn(bs: nat, t: Node, at: nat): nat
    requires bs > 0
    decreases t
  {
    match t
    case Dir(_, entries) =>
      ListingsInSome(bs, entries, |entries|, at) + ListingLen(entries, Positions(bs, entries, |entries|, at))
    case _ => 0
  }

  function ListingsInSome(bs: nat, entries: seq<Entry>, n: nat, at: nat): nat
    requires bs > 0 && n <= |entries|
    decreases entries, n
  {
    if n == 0 then 0
    else
      ListingsInSome(bs, entries, n - 1, at) +
      ListingsIn(bs, entries[n - 1].node, EntriesEnd(bs, entries, n - 1, at))
  }

  // ----- data -----

  /** The bytes of all files. */
  function ContentIn(t: Node): nat
    decreases t
  {
    match t
    case File(_, content) => |content|
    case Link(_, _) => 0
    case Dir(_, entries) => ContentInSome(entries, |entries|)
  }

  function ContentInSome(entries: seq<Entry>, n: nat): nat
    requires n <= |entries|
    decreases entries, n
  {
    if n == 0 then 0 else ContentInSome(entries, n - 1) + ContentIn(entries[n - 1].node)
  }

  /** Fragment blocks, the pending one included. */
  function FragBlocks(d: Data): nat {
    |d.frags| + if d.pending == [] then 0 else 1
  }

  /** No more than `n` bytes and `files` fragment blocks come in addition. */
  predicate AtMost(d: Data, e: Data, n: nat, files: nat) {
    && |e.image| + |e.pending| <= |d.image| + |d.pending| + n
    && FragBlocks(e) <= FragBlocks(d) + files
  }

  lemma {:induction false} AtMostSum(d: Data, e: Data, f: Data, m: nat, n: nat, files: nat, more: nat)
    requires AtMost(d, e, m, files) && AtMost(e, f, n, more)
    ensures AtMost(d, f, m + n, files + more)
  {
  }

  /** A block takes no more than its bytes. */
  lemma {:induction false} BlockAtMost(z: Codec, d: Data, block: bytes)
    ensures AtMost(d, WithBlock(z, d, block), |block|, 0)
  {
  }

  /** Flushing adds nothing. */
  lemma {:induction false} FlushAtMost(z: Codec, d: Data)
    ensures d.pending != [] ==> AtMost(d, Flushed(z, d), 0, 0)
  {
  }

  lemma {:induction false} CollectAtMost(d: Data, tail: bytes)
    ensures AtMost(d, Collected(d, tail), |tail|, 1)
    ensures d.pending != [] ==> AtMost(d, Collected(d, tail), |tail|, 0)
  {
  }

  // ----- what the writer adds -----

  /** The positions of the children's inodes. */
  function PositionsOf(recs: seq<Rec>, cs: seq<Child>): (ps: seq<nat>)
    ensures |ps| == |cs|
  {
    seq(|cs|, i requires 0 <= i < |cs| => if ChildOk(recs, cs[i]) then InodePos(recs, cs[i].inum - 1) else 0)
  }

  lemma {:induction false} PositionAt(recs: seq<Rec>, pos: map<nat, nat>, cs: seq<Child>, i: nat)
    requires PosOk(pos, recs) && ChildrenOk(recs, cs) && i < |cs|
    ensures cs[i].inum in pos && pos[cs[i].inum] == PositionsOf(recs, cs)[i]
  {
    assert ChildOk(recs, cs[i]);
  }

  /** Children with inodes in one block, 256 at most, make a group. */
  lemma {:induction false} GroupOfPositions(recs: seq<Rec>, cs: seq<Child>, lo: nat, hi: nat)
    requires ChildrenOk(recs, cs) && lo < hi <= |cs| && hi - lo <= 256
    requires forall i :: lo <= i < hi ==> PositionsOf(recs, cs)[i] / META == PositionsOf(recs, cs)[lo] / META
    ensures ChildrenOk(recs, cs[lo..hi]) && GroupOk(Group(EntsOf(recs, cs[lo..hi])))
  {
    hide InodePos, GroupOk;
    forall i | lo <= i < hi
      ensures ChildOk(recs, cs[i])
      ensures InodePos(recs, cs[i].inum - 1) / META == InodePos(recs, cs[lo].inum - 1) / META
    {
      assert ChildOk(recs, cs[i]) && ChildOk(recs, cs[lo]);
      assert PositionsOf(recs, cs)[i] / META == PositionsOf(recs, cs)[lo] / META;
    }
    GroupOfChildren(recs, cs, lo, hi);
  }

  /** The layout has grown by what the tree takes. */
  ghost predicate Measured(bs: nat, l: Layout, k: Layout, t: Node)
    requires bs > 0
  {
    var at := InodePos(l.recs, |l.recs|);
    && |k.recs| > 0 && InodePos(k.recs, |k.recs| - 1) == InodeStart(bs, t, at)
    && InodePos(k.recs, |k.recs|) == TreeEnd(bs, t, at)
    && GroupPos(k.groups, |k.groups|) == GroupPos(l.groups, |l.groups|) + ListingsIn(bs, t, at)
    && AtMost(l.data, k.data, ContentIn(t), FilesIn(t))
  }

  /** It has grown by what the first `n` entries take, whose inodes are those of `children`. */
  ghost predicate MeasuredSome(bs: nat, l: Layout, k: Layout, entries: seq<Entry>, n: nat, children: seq<Child>)
    requires bs > 0 && n <= |entries|
  {
    var at := InodePos(l.recs, |l.recs|);
    && InodePos(k.recs, |k.recs|) == EntriesEnd(bs, entries, n, at)
    && PositionsOf(k.recs, children) == Positions(bs, entries, n, at)
    && GroupPos(k.groups, |k.groups|) == GroupPos(l.groups, |l.groups|) + ListingsInSome(bs, entries, n, at)
    && AtMost(l.data, k.data, ContentInSome(entries, n), FilesInSome(entries, n))
  }

  /** An empty directory takes its inode and nothing else, and fits behind the superblock. */
  lemma {:induction false} EmptyRootFits(bs: nat, attr: Attr)
    requires bs > 0
    ensures var t := Dir(attr, []);
      && TreeEnd(bs, t, 0) == 32 && ListingsIn(bs, t, 0) == 0 && ContentIn(t) == 0
      && WillFit(TreeEnd(bs, t, 0), ListingsIn(bs, t, 0), SUPERBLOCK + ContentIn(t), FilesIn(t))
  {
    var t := Dir(attr, []);
    assert Positions(bs, t.entries, |t.entries|, 0) == [];
    assert GroupsFrom([], 0) == 0 && ListingLen(t.entries, []) == 0;
    assert InodeStart(bs, t, 0) == 0;
  }

  lemma {:induction false} OneRecMore(recs: seq<Rec>, more: seq<Rec>, r: Rec)
    requires more == recs + [r]
    ensures InodePos(more, |recs|) == InodePos(recs, |recs|)
    ensures InodePos(more, |more|) == InodePos(recs, |recs|) + RecLen(r)
  {
    InodePosMono(recs, more, |recs|);
  }

  lemma {:induction false} FileMeasured(bs: nat, l: Layout, k: Layout, t: Node, r: Rec)
    requires bs > 0 && t.File? && r.FileRec? && |r.blocks| == |t.content| / bs && k.recs == l.recs + [r]
    requires k.groups == l.groups && AtMost(l.data, k.data, |t.content|, 1)
    ensures Measured(bs, l, k, t)
  {
    OneRecMore(l.recs, k.recs, r);
  }

  lemma {:induction false} LinkMeasured(bs: nat, l: Layout, k: Layout, t: Node, r: Rec)
    requires bs > 0 && t.Link? && r.LinkRec? && r.target == t.target && k.recs == l.recs + [r]
    requires k.groups == l.groups && l.data == k.data
    ensures Measured(bs, l, k, t)
  {
    OneRecMore(l.recs, k.recs, r);
  }

  lemma {:induction false} NoneMeasured(bs: nat, l: Layout, entries: seq<Entry>)
    requires bs > 0
    ensures MeasuredSome(bs, l, l, entries, 0, [])
  {
  }

  lemma {:induction false} PositionsGrow(recs: seq<Rec>, more: seq<Rec>, children: seq<Child>, c: Child)
    requires recs <= more && c.inum == |more| > 0 && ChildOk(more, c)
    requires forall i :: 0 <= i < |children| ==> ChildOk(recs, children[i])
    ensures PositionsOf(more, children + [c]) == PositionsOf(recs, children) + [InodePos(more, |more| - 1)]
  {
    forall i | 0 <= i < |children| ensures PositionsOf(more, children + [c])[i] == PositionsOf(recs, children)[i] {
      assert ChildOk(recs, children[i]) && ChildOk(more, children[i]);
      InodePosMono(recs, more, children[i].inum - 1);
    }
  }

  lemma {:induction false} OneMeasuredMore(
    bs: nat, l0: Layout, l: Layout, k: Layout, entries: seq<Entry>, n: nat, children: seq<Child>, c: Child)
    requires bs > 0 && n < |entries| && MeasuredSome(bs, l0, l, entries, n, children)
    requires Measured(bs, l, k, entries[n].node) && l.recs <= k.recs && c.inum == |k.recs| && ChildOk(k.recs, c)
    requires forall i :: 0 <= i < |children| ==> ChildOk(l.recs, children[i])
    ensures MeasuredSome(bs, l0, k, entries, n + 1, children + [c])
  {
    PositionsGrow(l.recs, k.recs, children, c);
  }

  // ----- what a directory adds -----

  lemma {:induction false} EntsLenSum(a: seq<Ent>, b: seq<Ent>)
    ensures EntsLen(a + b) == EntsLen(a) + EntsLen(b)
    decreases |a|
  {
    if a == [] {
      assert a + b == b;
    } else {
      assert (a + b)[1..] == a[1..] + b;
      EntsLenSum(a[1..], b);
    }
  }

  /** Groups take their entries and twelve bytes each. */
  lemma {:induction false} GroupsTake(gs: seq<Group>, lo: nat, hi: nat)
    requires lo <= hi <= |gs|
    ensures GroupPos(gs, hi) == GroupPos(gs, lo) + 12 * (hi - lo) + EntsLen(AllEnts(gs[lo..hi]))
    decreases hi
  {
    if lo < hi {
      GroupsTake(gs, lo, hi - 1);
      assert gs[lo..hi] == gs[lo..hi - 1] + [gs[hi - 1]];
      AllEntsAppend(gs[lo..hi - 1], gs[hi - 1]);
      EntsLenSum(AllEnts(gs[lo..hi - 1]), gs[hi - 1].ents);
    } else {
      assert gs[lo..hi] == [];
    }
  }

  lemma {:induction false} NamesTake(es: seq<Ent>, entries: seq<Entry>, n: nat)
    requires n <= |es| == |entries| && forall i :: 0 <= i < |es| ==> es[i].name == entries[i].name
    ensures EntsLen(es[..n]) == EntriesLen(entries, n)
    decreases n
  {
    if n > 0 {
      NamesTake(es, entries, n - 1);
      assert es[..n] == es[..n - 1] + [es[n - 1]];
      EntsLenSum(es[..n - 1], [es[n - 1]]);
      assert EntsLen([es[n - 1]]) == 8 + |es[n - 1].name| + EntsLen([]);
    }
  }

  /** The groups of one listing take what its entries and their positions say. */
  lemma {:induction false} ListingTakes(
    gs: seq<Group>, more: seq<Group>, es: seq<Ent>, entries: seq<Entry>, ps: seq<nat>)
    requires gs <= more && AllEnts(more[|gs|..]) == es && |more| == |gs| + GroupsFrom(ps, 0)
    requires |es| == |entries| && forall i :: 0 <= i < |es| ==> es[i].name == entries[i].name
    ensures GroupPos(more, |more|) == GroupPos(gs, |gs|) + ListingLen(entries, ps)
  {
    hide GroupsFrom, GroupPos, EntsLen, AllEnts;
    GroupPosMono(gs, more, |gs|);
    GroupsTake(more, |gs|, |more|);
    assert more[|gs|..|more|] == more[|gs|..];
    NamesTake(es, entries, |es|);
    assert es[..|es|] == es;
  }

  lemma {:induction false} DirMeasured(
    bs: nat, l0: Layout, l: Layout, k: Layout, t: Node, children: seq<Child>, r: Rec)
    requires bs > 0 && t.Dir? && MeasuredSome(bs, l0, l, t.entries, |t.entries|, children)
    requires r.DirRec? && k.recs == l.recs + [r] && k.data == l.data
    requires r.size == ListingLen(t.entries, PositionsOf(l.recs, children))
    requires GroupPos(k.groups, |k.groups|) == GroupPos(l.groups, |l.groups|) + r.size
    ensures Measured(bs, l0, k, t)
  {
    hide ListingLen;
    OneRecMore(l.recs, k.recs, r);
  }

  // ----- the tables on disk -----

  /** Metadata blocks for `n` raw bytes. */
  function Blocks(n: nat): nat {
    (n + META - 1) / META
  }

  lemma {:induction false} PackSize(z: Codec, raw: bytes)
    ensures |Pack(z, raw, true)| == |raw| + 2 * Blocks(|raw|)
    decreases |raw|
  {
    if raw != [] {
      var f := First(raw);
      PackSize(z, raw[|f|..]);
      assert Blocks(|raw|) == 1 + Blocks(|raw| - |f|);
    }
  }

  /** What follows the data, for raw tables of these sizes and `frags` fragment blocks, at most: the tables, the
      fragment table with its index, and one id. */
  function TablesBound(inodes: nat, dirs: nat, frags: nat): nat {
    inodes + 2 * Blocks(inodes) + dirs + 2 * Blocks(dirs) + 16 * frags + 10 * Blocks(16 * frags) + 14
  }

  /** The whole file at most, for `data` bytes in front of the tables: it is padded to a multiple of 4 KiB. */
  function FileBound(inodes: nat, dirs: nat, data: nat, frags: nat): nat {
    data + TablesBound(inodes, dirs, frags) + 4095
  }

  lemma {:induction false} BoundGrows(inodes: nat, dirs: nat, data: nat, frags: nat, more: nat, blocks: nat)
    requires data <= more && frags <= blocks
    ensures FileBound(inodes, dirs, data, frags) <= FileBound(inodes, dirs, more, blocks)
  {
    assert Blocks(16 * frags) <= Blocks(16 * blocks);
  }

  /** The sizes a caller can compute before the call leave every position room in its field. */
  predicate WillFit(inodes: nat, dirs: nat, data: nat, frags: nat) {
    RefBlock(inodes) < MAX32 && RefBlock(dirs) < MAX32 && data < MAX32 && frags < NO_FRAGMENT
  }

  lemma {:induction false} BoundIsSmall(inodes: nat, dirs: nat, data: nat, frags: nat)
    requires WillFit(inodes, dirs, data, frags)
    ensures FileBound(inodes, dirs, data, frags) < 0x100_0000_0000
  {
    assert inodes < MAX32 + META && dirs < MAX32 + META;
  }
}
