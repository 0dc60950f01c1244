/** Directory listings of a squashfs image (pkg/lib/squashfs/writer.go:670-738). */
module SquashDir {
  import opened Options
  import opened Arith
  import opened SquashBytes
  import opened SquashMeta
  import opened SquashInode

  /** A child: its inode number and raw inode position, its kind and its name. */
  datatype Ent = Ent(inum: nat, pos: nat, kind: nat, name: bytes)

  /** Entries that share one header: their inodes lie in one metadata block. */
  datatype Group = Group(ents: seq<Ent>)

  predicate Writable(first: nat, e: Ent) {
    first <= e.inum && e.name != []
  }

  function EntFields(first: nat, e: Ent): seq<Field> {
    if Writable(first, e) then
      [Field(RefOffset(e.pos), 2), Field(e.inum - first, 2), Field(e.kind, 2), Field(|e.name| - 1, 2)]
    else []
  }

  function EntsBytes(first: nat, es: seq<Ent>): bytes {
    if es == [] then [] else Encode(EntFields(first, es[0])) + es[0].name + EntsBytes(first, es[1..])
  }

  function GroupHeader(count: nat, start: nat, first: nat): bytes {
    if count > 0 then Encode([Field(count - 1, 4), Field(start, 4), Field(first, 4)]) else []
  }

  /** One block, inode numbers near each other, at most 256 entries, names that fit. */
  ghost predicate GroupOk(g: Group) {
    && 0 < |g.ents| <= 256
    && (forall i :: 0 <= i < |g.ents| ==> EntOk(g.ents[0], g.ents[i]))
  }

  ghost predicate EntOk(first: Ent, e: Ent)
    ensures EntOk(first, e) ==> Writable(first.inum, e)
  {
    && e.pos / META == first.pos / META
    && first.inum <= e.inum < first.inum + 32768
    && e.kind < 65536 && 0 < |e.name| <= 65536
  }

  function GroupBytes(g: Group, start: nat): bytes {
    if g.ents == [] then [] else GroupHeader(|g.ents|, start, g.ents[0].inum) + EntsBytes(g.ents[0].inum, g.ents)
  }

  /** Where the inode block of a group starts. */
  function GroupRef(g: Group): nat {
    if g.ents == [] then 0 else RefBlock(g.ents[0].pos)
  }

  function EntsLen(es: seq<Ent>): nat {
    if es == [] then 0 else 8 + |es[0].name| + EntsLen(es[1..])
  }

  /** How many bytes a group takes. */
  function GroupLen(g: Group): nat {
    12 + EntsLen(g.ents)
  }

  lemma {:induction false} EntsSize(first: nat, es: seq<Ent>)
    requires forall i :: 0 <= i < |es| ==> Writable(first, es[i])
    ensures |EntsBytes(first, es)| == EntsLen(es) >= |es|
    decreases |es|
  {
    if es != [] {
      assert Writable(first, es[0]);
      var fs := EntFields(first, es[0]);
      Encode4(fs[0], fs[1], fs[2], fs[3]);
      EntsSize(first, es[1..]);
    }
  }

  lemma {:induction false} GroupSize(g: Group, start: nat)
    requires GroupOk(g)
    ensures |GroupBytes(g, start)| == GroupLen(g)
  {
    Encode3(Field(|g.ents| - 1, 4), Field(start, 4), Field(g.ents[0].inum, 4));
    EntsSize(g.ents[0].inum, g.ents);
  }

  /** The patch a group gets: the start of its inode block, in the second header field. */
  function GroupPiece(g: Group): Piece {
    Piece(GroupBytes(g, 0), [Patch(4, LE(GroupRef(g), 4))])
  }

  lemma {:induction false} Encode3(a: Field, b: Field, c: Field)
    ensures Encode([a, b, c]) == F(a) + F(b) + F(c)
  {
    assert [a, b, c][1..] == [b, c];
    assert [b, c][1..] == [c];
    assert Encode([c]) == F(c) + [] == F(c);
    assert F(a) + (F(b) + F(c)) == F(a) + F(b) + F(c);
  }

  lemma {:induction false} PatchedGroup(g: Group)
    requires GroupOk(g)
    ensures PieceOk(GroupPiece(g))
    ensures ApplyAll(GroupBytes(g, 0), GroupPiece(g).patches) == GroupBytes(g, RefBlock(g.ents[0].pos))
  {
    var n, first := |g.ents| - 1, g.ents[0].inum;
    var ref := RefBlock(g.ents[0].pos);
    Encode3(Field(n, 4), Field(0, 4), Field(first, 4));
    Encode3(Field(n, 4), Field(ref, 4), Field(first, 4));
    var a, b := LE(n, 4), LE(first, 4) + EntsBytes(first, g.ents);
    var s := GroupBytes(g, 0);
    assert s == a + LE(0, 4) + b;
    var p := Patch(4, LE(ref, 4));
    assert s[..4] == a && s[8..] == b;
    assert Apply(s, p) == a + LE(ref, 4) + b;
    assert [p][..0] == [];
    assert ApplyAll(s, [p]) == Apply(ApplyAll(s, []), p);
    assert a + LE(ref, 4) + b == GroupBytes(g, ref);
  }

  // ----- reading -----

  /** A directory entry as a reader sees it. */
  datatype Dirent = Dirent(name: bytes, kind: nat, inum: int, block: nat, offset: nat)

  function Signed16(v: nat): int {
    if v >= 32768 then v - 65536 else v
  }

  /** `n` entries that follow a header. */
  function ParseEnts(s: bytes, n: nat, start: nat, first: nat): Option<(seq<Dirent>, bytes)>
    decreases n
  {
    if n == 0 then Some(([], s))
    else match Decode(s, [2, 2, 2, 2])
         case None => None
         case Some(v) =>
           if |v| != 4 || |s| < 8 + v[3] + 1 then None
           else
             var name := s[8..8 + v[3] + 1];
             match ParseEnts(s[8 + v[3] + 1..], n - 1, start, first)
             case None => None
             case Some((ds, rest)) => Some(([Dirent(name, v[2], first + Signed16(v[1]), start, v[0])] + ds, rest))
  }

  /** All groups of a listing. */
  function ParseListing(s: bytes): Option<seq<Dirent>>
    decreases |s|
  {
    if s == [] then Some([])
    else match Decode(s, [4, 4, 4])
         case None => None
         case Some(v) =>
           if |v| != 3 || |s| < 12 then None
           else match ParseEnts(s[12..], v[0] + 1, v[1], v[2])
                case None => None
                case Some((ds, rest)) =>
                  if |rest| >= |s| then None
                  else match ParseListing(rest)
                       case None => None
                       case Some(more) => Some(ds + more)
  }

  function DirentOf(e: Ent): Dirent {
    Dirent(e.name, e.kind, e.inum, RefBlock(e.pos), RefOffset(e.pos))
  }

  function DirentsOf(es: seq<Ent>): (ds: seq<Dirent>)
    ensures |ds| == |es| && forall i :: 0 <= i < |es| ==> ds[i] == DirentOf(es[i])
  {
    seq(|es|, i requires 0 <= i < |es| => DirentOf(es[i]))
  }

  lemma {:induction false} ParseOneEnt(first: Ent, e: Ent, rest: bytes)
    requires EntOk(first, e)
    ensures var s := Encode(EntFields(first.inum, e)) + e.name + rest;
      && Decode(s, [2, 2, 2, 2]) == Some([RefOffset(e.pos), e.inum - first.inum, e.kind, |e.name| - 1])
      && |s| >= 8 + |e.name| && s[8..8 + |e.name|] == e.name && s[8 + |e.name|..] == rest
  {
    var fs := EntFields(first.inum, e);
    var s := Encode(fs) + e.name + rest;
    assert s == Encode(fs) + (e.name + rest);
    Pow256Values();
    ReadFields(fs, e.name + rest, [2, 2, 2, 2], [RefOffset(e.pos), e.inum - first.inum, e.kind, |e.name| - 1]);
    Encode4(fs[0], fs[1], fs[2], fs[3]);
  }

  lemma {:induction false} ParseGroupEnts(first: Ent, es: seq<Ent>, rest: bytes)
    requires forall i :: 0 <= i < |es| ==> EntOk(first, es[i])
    ensures forall i :: 0 <= i < |es| ==> Writable(first.inum, es[i])
    ensures ParseEnts(EntsBytes(first.inum, es) + rest, |es|, RefBlock(first.pos), first.inum)
      == Some((DirentsOf(es), rest))
    decreases |es|
  {
    assert forall i :: 0 <= i < |es| ==> EntOk(first, es[i]) && Writable(first.inum, es[i]);
    if es == [] {
      assert EntsBytes(first.inum, es) + rest == rest;
    } else {
      var e, more := es[0], es[1..];
      var tail := EntsBytes(first.inum, more) + rest;
      var s := Encode(EntFields(first.inum, e)) + e.name + tail;
      assert EntsBytes(first.inum, es) + rest == s;
      ParseGroupEnts(first, more, rest);
      ParseNextEnt(first, e, tail, s, |more|, DirentsOf(more), rest);
      assert DirentsOf(es) == [DirentOf(e)] + DirentsOf(more);
    }
  }

  lemma {:induction false} ParseNextEnt(first: Ent, e: Ent, tail: bytes, s: bytes, n: nat, ds: seq<Dirent>, rest: bytes)
    requires EntOk(first, e) && Writable(first.inum, e) && s == Encode(EntFields(first.inum, e)) + e.name + tail
    requires ParseEnts(tail, n, RefBlock(first.pos), first.inum) == Some((ds, rest))
    ensures ParseEnts(s, n + 1, RefBlock(first.pos), first.inum) == Some(([DirentOf(e)] + ds, rest))
  {
    ParseOneEnt(first, e, tail);
  }

  function AllEnts(gs: seq<Group>): seq<Ent> {
    if gs == [] then [] else gs[0].ents + AllEnts(gs[1..])
  }

  ghost predicate GroupsOk(gs: seq<Group>) {
    forall i :: 0 <= i < |gs| ==> GroupOk(gs[i])
  }

  /** The listing on disk, after the fixups. */
  function ListingBytes(gs: seq<Group>): bytes {
    if gs == [] then [] else GroupBytes(gs[0], GroupRef(gs[0])) + ListingBytes(gs[1..])
  }

  ghost predicate GroupFits(g: Group) {
    GroupOk(g) && RefBlock(g.ents[0].pos) < MAX32 && g.ents[0].inum < MAX32
  }

  /** A listing is read back as its entries, in order. */
  lemma {:induction false} ParseListingBytes(gs: seq<Group>)
    requires GroupsOk(gs) && forall i :: 0 <= i < |gs| ==> GroupFits(gs[i])
    ensures ParseListing(ListingBytes(gs)) == Some(DirentsOf(AllEnts(gs)))
    decreases |gs|
  {
    if gs != [] {
      var g := gs[0];
      var first := g.ents[0];
      var rest := ListingBytes(gs[1..]);
      assert GroupFits(g) && GroupsOk(gs[1..]);
      ParseGroupHeader(g, rest);
      ParseGroupEnts(first, g.ents, rest);
      ParseListingBytes(gs[1..]);
      DirentsConcat(g.ents, AllEnts(gs[1..]));
    }
  }

  lemma {:induction false} DirentsConcat(a: seq<Ent>, b: seq<Ent>)
    ensures DirentsOf(a + b) == DirentsOf(a) + DirentsOf(b)
  {
  }

  lemma {:induction false} ParseGroupHeader(g: Group, rest: bytes)
    requires GroupFits(g)
    ensures var s := GroupBytes(g, RefBlock(g.ents[0].pos)) + rest;
      && Decode(s, [4, 4, 4]) == Some([|g.ents| - 1, RefBlock(g.ents[0].pos), g.ents[0].inum])
      && |s| >= 12 && s[12..] == EntsBytes(g.ents[0].inum, g.ents) + rest && |rest| < |s|
  {
    var first := g.ents[0];
    var fs := [Field(|g.ents| - 1, 4), Field(RefBlock(first.pos), 4), Field(first.inum, 4)];
    var body := EntsBytes(first.inum, g.ents) + rest;
    var s := GroupBytes(g, RefBlock(first.pos)) + rest;
    assert s == Encode(fs) + body;
    Pow256Values();
    ReadFields(fs, body, [4, 4, 4], [|g.ents| - 1, RefBlock(first.pos), first.inum]);
    Encode3(fs[0], fs[1], fs[2]);
  }
}
