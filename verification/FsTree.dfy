/**
 Directory trees, where their parts lie in an image, and what it means that an
 image holds a tree.
 */
module FsTree {
  import opened Bytes
  import opened SimpleFs

  /** A directory of the host as mkfs/mksfs.c sees it; kids in readdir's order. */
  datatype Tree = File(name: Name, bytes: seq<byte>) | Dir(name: Name, kids: seq<Tree>)

  /** The blocks of a stored tree: n holds the inode, ind the indirect block (0: none), data a file's bytes. */
  datatype Plan = FilePlan(n: int, ind: int, data: seq<int>) | DirPlan(n: int, ind: int, kids: seq<Plan>)

  /** The packer can represent the names and the sizes. */
  ghost predicate TreeOk(t: Tree) {
    match t
    case File(name, bytes) => NameOk(name) && |bytes| < WORD32
    case Dir(name, kids) => NameOk(name) && |kids| + 2 < WORD32 && forall i | 0 <= i < |kids| :: TreeOk(kids[i])
  }

  // ----- how many blocks a tree needs

  /** One indirect block if an inode has more than twelve entries. */
  function Extra(entries: nat): nat { if entries > 12 then 1 else 0 }

  function Need(t: Tree): nat {
    match t
    case File(_, bytes) => 1 + Extra(Chunks(|bytes|)) + Chunks(|bytes|)
    case Dir(_, kids) => 1 + NeedInside(kids)
  }

  function NeedAll(ts: seq<Tree>): nat
    decreases ts, 0
  {
    if ts == [] then 0 else NeedAll(ts[..|ts| - 1]) + Need(ts[|ts| - 1])
  }

  /** The blocks that filling a directory takes, its inode's own block aside. */
  function NeedInside(kids: seq<Tree>): nat
    decreases kids, 1
  {
    Extra(|kids| + 2) + NeedAll(kids)
  }

  lemma {:induction false} NeedPrefix(ts: seq<Tree>, k: nat)
    requires k <= |ts|
    ensures NeedAll(ts[..k]) + |ts| - k <= NeedAll(ts)
    ensures k < |ts| ==> NeedAll(ts[..k]) + Need(ts[k]) <= NeedAll(ts)
  {
    if k == |ts| {
      assert ts[..k] == ts;
    } else {
      var rest := ts[..|ts| - 1];
      assert rest[..k] == ts[..k];
      NeedPrefix(rest, k);
      assert Need(ts[|ts| - 1]) >= 1;
    }
  }

  // ----- the role of every block

  function Index(ind: int): multiset<int> { if ind == 0 then multiset{} else multiset{ind} }

  /** How often each block is used: as an inode, an indirect block or for data. */
  function Roles(p: Plan): multiset<int> {
    match p
    case FilePlan(n, ind, data) => multiset{n} + Index(ind) + multiset(data)
    case DirPlan(n, ind, kids) => multiset{n} + Index(ind) + RolesAll(kids)
  }

  function RolesAll(ps: seq<Plan>): multiset<int> {
    if ps == [] then multiset{} else RolesAll(ps[..|ps| - 1]) + Roles(ps[|ps| - 1])
  }

  lemma {:induction false} RolesOfKid(ps: seq<Plan>, i: nat)
    requires i < |ps|
    ensures Roles(ps[i]) <= RolesAll(ps)
  {
    if i < |ps| - 1 {
      assert ps[..|ps| - 1][i] == ps[i];
      RolesOfKid(ps[..|ps| - 1], i);
    }
  }

  // ----- an image holds a tree

  function Nums(ps: seq<Plan>): seq<int> {
    seq(|ps|, i requires 0 <= i < |ps| => ps[i].n)
  }

  /** The entries of a directory: itself, its parent, its files. */
  function DirList(n: int, parent: int, ps: seq<Plan>): seq<int> {
    [n, parent] + Nums(ps)
  }

  /** Block b holds the i-th piece of the bytes. */
  ghost predicate Piece(img: seq<Block>, b: int, bytes: seq<byte>, i: nat) {
    var from := BLOCK_SIZE * i;
    var len := if |bytes| - from < BLOCK_SIZE then |bytes| - from else BLOCK_SIZE;
    len > 0 && BlockAt(img, b)[..len] == bytes[from..from + len]
  }

  ghost predicate FileInode(img: seq<Block>, ino: Inode, name: Name, bytes: seq<byte>, ind: int, data: seq<int>) {
    && ino.kind == TYPE_FILE && ino.size == |bytes| && ino.blocks == BlocksField(|bytes|)
    && CString(ino.filename) == name
    && ino.indirect == ind && (ind == 0 <==> |data| <= 12)
    && |data| == Chunks(|bytes|) && Listed(img, ino, data)
    && forall i | 0 <= i < |data| :: Piece(img, data[i], bytes, i)
  }

  ghost predicate DirInode(img: seq<Block>, ino: Inode, name: Name, n: int, parent: int, ind: int, ps: seq<Plan>) {
    && ino.kind == TYPE_DIR && ino.size == 0 && ino.blocks == |ps| + 2
    && CString(ino.filename) == name
    && ino.indirect == ind && (ind == 0 <==> |ps| + 2 <= 12)
    && Listed(img, ino, DirList(n, parent, ps))
  }

  /** The image holds t at the blocks of p; parent is the inode block of the directory above. */
  ghost predicate Stored(img: seq<Block>, p: Plan, t: Tree, parent: int)
    decreases t
  {
    && 0 < p.n < |img|
    && InodeOk(InodeOf(img[p.n]))
    && match t
       case File(name, bytes) => p.FilePlan? && FileInode(img, InodeOf(img[p.n]), name, bytes, p.ind, p.data)
       case Dir(name, kids) =>
         && p.DirPlan? && |p.kids| == |kids|
         && DirInode(img, InodeOf(img[p.n]), name, p.n, parent, p.ind, p.kids)
         && forall i | 0 <= i < |kids| :: Stored(img, p.kids[i], kids[i], p.n)
  }

  /** img2 has the same blocks as img wherever m counts one. */
  ghost predicate Same(img: seq<Block>, img2: seq<Block>, m: multiset<int>) {
    |img2| == |img| && forall b | b in m :: BlockAt(img2, b) == BlockAt(img, b)
  }

  lemma FileKept(img: seq<Block>, img2: seq<Block>, ino: Inode, name: Name, bytes: seq<byte>, ind: int, data: seq<int>)
    requires FileInode(img, ino, name, bytes, ind, data) && Same(img, img2, Index(ind) + multiset(data))
             && |ino.direct| == 12
    ensures FileInode(img2, ino, name, bytes, ind, data)
  {
    assert ind != 0 ==> BlockAt(img2, ind) == BlockAt(img, ind) by {
      assert ind != 0 ==> ind in Index(ind) + multiset(data);
    }
    forall i | 0 <= i < |data|
      ensures EntryAt(img2, ino, i) == data[i] && Piece(img2, data[i], bytes, i)
    {
      assert EntryAt(img, ino, i) == data[i] && Piece(img, data[i], bytes, i);
      assert data[i] in multiset(data);
    }
  }

  lemma DirKept(img: seq<Block>, img2: seq<Block>, ino: Inode, name: Name, n: int, parent: int, ind: int, ps: seq<Plan>)
    requires DirInode(img, ino, name, n, parent, ind, ps) && Same(img, img2, Index(ind)) && |ino.direct| == 12
    ensures DirInode(img2, ino, name, n, parent, ind, ps)
  {
    assert ind != 0 ==> BlockAt(img2, ind) == BlockAt(img, ind) by {
      assert ind != 0 ==> ind in Index(ind);
    }
    var list := DirList(n, parent, ps);
    forall i | 0 <= i < |list|
      ensures EntryAt(img2, ino, i) == list[i]
    {
      assert EntryAt(img, ino, i) == list[i];
    }
  }

  /** Only the blocks that have a role in p matter. */
  lemma {:induction false} StoredKept(img: seq<Block>, img2: seq<Block>, p: Plan, t: Tree, parent: int)
    requires Stored(img, p, t, parent) && Same(img, img2, Roles(p))
    ensures Stored(img2, p, t, parent)
    decreases t
  {
    assert p.n in Roles(p);
    assert img2[p.n] == BlockAt(img2, p.n) == BlockAt(img, p.n);
    var ino := InodeOf(img[p.n]);
    match t
    case File(name, bytes) =>
      FileKept(img, img2, ino, name, bytes, p.ind, p.data);
    case Dir(name, kids) =>
      DirKept(img, img2, ino, name, p.n, parent, p.ind, p.kids);
      forall i | 0 <= i < |kids|
        ensures Stored(img2, p.kids[i], kids[i], p.n)
      {
        RolesOfKid(p.kids, i);
        StoredKept(img, img2, p.kids[i], kids[i], p.n);
      }
  }

  /** A stored tree takes exactly as many blocks as it needs. */
  lemma {:induction false} StoredSize(img: seq<Block>, p: Plan, t: Tree, parent: int)
    requires Stored(img, p, t, parent)
    ensures |Roles(p)| == Need(t)
    decreases t, 1
  {
    if t.Dir? {
      StoredSizes(img, p.kids, t.kids, p.n, t);
    }
  }

  lemma {:induction false} StoredSizes(img: seq<Block>, ps: seq<Plan>, ts: seq<Tree>, parent: int, t: Tree)
    requires t.Dir? && ts <= t.kids && |ps| == |ts| && forall i | 0 <= i < |ts| :: Stored(img, ps[i], ts[i], parent)
    ensures |RolesAll(ps)| == NeedAll(ts)
    decreases t, 0, |ts|
  {
    if ts != [] {
      var k := |ts| - 1;
      assert ts[k] == t.kids[k];
      StoredSizes(img, ps[..k], ts[..k], parent, t);
      StoredSize(img, ps[k], ts[k], parent);
    }
  }

  /** The role of every used block of an image: superblock, freemap, and the parts of the root directory. */
  function AllRoles(p: Plan): multiset<int> {
    multiset{0, 1} + Roles(p)
  }

  /** A whole image: the root directory t, and a superblock and freemap that agree with it. */
  ghost predicate Packed(img: seq<Block>, p: Plan, t: Tree) {
    && |img| == BLOCK_NUM && t.Dir? && p.n == FREEMAP_NUM + 1 && Stored(img, p, t, p.n)
    && (forall b | b in AllRoles(p) :: 0 <= b < BLOCK_NUM && AllRoles(p)[b] == 1)
    && (forall b | 0 <= b < BLOCK_NUM :: Taken(img[1], b) <==> b in AllRoles(p))
    && var s := SuperOf(img[0]);
       s.magic == MAGIC_NUM && s.blocks == BLOCK_NUM && s.freemapBlocks == FREEMAP_NUM
       && s.unusedBlocks == BLOCK_NUM - |AllRoles(p)|
  }
}
