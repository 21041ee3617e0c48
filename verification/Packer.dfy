/**
 The recursive packer of mkfs/mksfs.c.
 */
module Packer {
  import opened Bits
  import opened Bytes
  import opened SimpleFs
  import opened FsTree
  import opened Packing

  /** What a local Inode holds before it is filled in; only indirect is taken to start as 0. */
  method Uninitialised() returns (ino: Inode)
    ensures InodeOk(ino) && ino.indirect == 0
  {
    ino := Inode(0, 0, seq(NAME_LEN, _ => 0), 0, seq(12, _ => 0), 0);
  }

  /** The loop that copies a name into an inode, and the NUL after it. */
  method CopyName(name: Name, junk: seq<byte>) returns (f: seq<byte>)
    requires NameOk(name) && |junk| == NAME_LEN
    ensures f == NameField(name, junk)
  {
    f := junk;
    for i := 0 to |name|
      invariant |f| == NAME_LEN && f[..i] == name[..i] && f[i..] == junk[i..]
    {
      f := f[i := name[i]];
    }
    f := f[|name| := 0];
    assert f == NameField(name, junk);
  }

  class Packer {
    const image: array<Block>
    const freemap: array<bool>
    var freenum: int

    ghost predicate Valid()
      reads this, image, freemap
    {
      image.Length == BLOCK_NUM && freemap.Length == BLOCK_NUM && image as object != freemap && Conserved(D())
      && freemap[0]
    }

    ghost function D(): Disk
      reads this, image, freemap
    {
      Disk(image[..], freemap[..], freenum)
    }

    lemma ValidFacts()
      requires Valid()
      ensures Conserved(D()) && 0 <= D().left <= BLOCK_NUM
    {
      LeftBound(D());
    }

    /** The zeroed globals, and the first lines of main: superblock, freemap and root inode are taken. */
    constructor ()
      ensures Valid() && fresh(image) && fresh(freemap)
      ensures freenum == BLOCK_NUM - (FREEMAP_NUM + 2)
      ensures forall b | 0 <= b < BLOCK_NUM :: freemap[b] <==> b <= FREEMAP_NUM + 1
    {
      image := new Block[BLOCK_NUM](_ => seq(BLOCK_SIZE, _ => 0));
      freemap := new bool[BLOCK_NUM](_ => false);
      freenum := BLOCK_NUM;
      new;
      ghost var none := freemap[..];
      NoneUsed(none);
      freemap[0] := true;
      CountTake(none, 0);
      assert freemap[..] == none[0 := true];
      for i := 0 to FREEMAP_NUM
        invariant forall b | 0 <= b < BLOCK_NUM :: freemap[b] <==> b <= i
        invariant CountUsed(freemap[..]) == i + 1 && freenum == BLOCK_NUM
      {
        ghost var s := freemap[..];
        freemap[1 + i] := true;
        CountTake(s, 1 + i);
        assert freemap[..] == s[1 + i := true];
      }
      ghost var s := freemap[..];
      freemap[FREEMAP_NUM + 1] := true;
      CountTake(s, FREEMAP_NUM + 1);
      assert freemap[..] == s[FREEMAP_NUM + 1 := true];
      freenum := freenum - (FREEMAP_NUM + 2);
    }

    /** freemap[n] = 1, and freenum one less. */
    method Take(n: int)
      requires Valid() && 0 <= n < BLOCK_NUM && !freemap[n]
      modifies freemap, this
      ensures Valid() && Grew(old(D()), D(), multiset{n}) && D().image == old(D()).image
      ensures D().used == old(D().used)[n := true]
    {
      CountTake(freemap[..], n);
      freemap[n] := true;
      freenum := freenum - 1;
      assert freemap[..] == old(freemap[..])[n := true];
    }

    /** getFreeBlock: the lowest free block; -1 stands for its exit(1). */
    method GetFreeBlock() returns (n: int)
      requires Valid()
      modifies freemap, this
      ensures Valid() && D().image == old(D()).image
      ensures n == -1 <==> old(D()).left == 0
      ensures 0 <= old(D()).left && D().left == if n == -1 then 0 else old(D()).left - 1
      ensures n == -1 ==> D() == old(D())
      ensures n != -1 ==> Grew(old(D()), D(), multiset{n}) && D().used == old(D().used)[n := true]
      ensures n != -1 ==> 0 <= n < BLOCK_NUM && !old(freemap[n]) && forall b | 0 <= b < n :: old(freemap[b])
    {
      CountBound(freemap[..]);
      for i := 0 to BLOCK_NUM
        invariant forall b | 0 <= b < i :: freemap[b]
        invariant freemap[..] == old(freemap[..]) && freenum == old(freenum)
      {
        if !freemap[i] {
          Take(i);
          return i;
        }
      }
      return -1;
    }

    /** Write x over a block. */
    method Put(b: int, x: Block)
      requires Valid() && 0 <= b < BLOCK_NUM
      modifies image
      ensures Valid() && D() == old(D()).(image := old(D().image)[b := x])
    {
      image[b] := x;
      assert image[..] == old(image[..])[b := x];
    }

    /** copyInodeToBlock */
    method CopyInodeToBlock(b: int, ino: Inode)
      requires Valid() && 0 <= b < BLOCK_NUM && InodeOk(ino)
      modifies image
      ensures Valid() && InodeOf(D().image[b]) == ino
      ensures D() == old(D()).(image := old(D().image)[b := D().image[b]])
    {
      var x: Block := Encode(ino) + image[b][INODE_SIZE..];
      InodeRoundTrip(ino, x);
      Put(b, x);
    }

    /** Entry i of an inode becomes num; false when an indirect block is needed and none is left. */
    method Link(ino: Inode, i: nat, num: nat, ghost list: seq<int>) returns (ok: bool, r: Inode)
      requires Valid() && InodeOk(ino) && num < BLOCK_NUM && i == |list| < 12 + 1024
      requires Listed(D().image, ino, list) && ino.indirect < BLOCK_NUM
      requires ino.indirect == 0 <==> |list| <= 12
      modifies image, freemap, this
      ensures ok <==> !(i == 12 && old(D()).left == 0)
      ensures ok ==>
        && Valid() && LinkEffect(old(D()), D(), ino.indirect, r.indirect)
        && InodeOk(r) && SameHead(ino, r)
        && Listed(D().image, r, list + [num]) && r.indirect < BLOCK_NUM
        && (r.indirect == 0 <==> |list| + 1 <= 12)
    {
      r := ino;
      ok := true;
      if i < 12 {
        r := r.(direct := r.direct[i := num]);
        LinkDirect(image[..], image[..], ino, list, num);
      } else {
        if r.indirect == 0 {
          var b := GetFreeBlock();
          if b == -1 {
            return false, r;
          }
          r := r.(indirect := b);
        }
        ghost var img := image[..];
        Put(r.indirect, PutWord(image[r.indirect], 4 * (i - 12), 4, num));
        LinkIndirect(img, image[..], ino, r.indirect, list, num);
      }
    }

    /** fread: the next size bytes go to the start of block b. */
    method Fill(b: int, bytes: seq<byte>)
      requires Valid() && 0 <= b < BLOCK_NUM && |bytes| <= BLOCK_SIZE
      modifies image
      ensures Valid() && D() == old(D()).(image := old(D().image)[b := D().image[b]])
      ensures Sized(D()) && D().image[b][..|bytes|] == bytes
    {
      Put(b, bytes + image[b][|bytes|..]);
    }

    /** A fresh block b with the next piece of a file; -1 when the image is full. */
    method WritePiece(bytes: seq<byte>, l: nat, ino: Inode, ghost d0: Disk, ghost n: int, ghost data: seq<int>)
      returns (b: int, ghost d1: Disk)
      requires Valid() && l > 0 && l <= |bytes|
      requires FileSoFar(d0, D(), n, ino, bytes, data, l)
      modifies image, freemap, this
      ensures b == -1 <==> old(D()).left == 0
      ensures b != -1 ==>
        && Valid() && D().left == old(D()).left - 1
        && 0 <= b < BLOCK_NUM && Grew(old(D()), d1, multiset{b}) && d1.image == old(D()).image
        && D() == d1.(image := d1.image[b := D().image[b]])
        && Listed(D().image, ino, data) && Piece(D().image, b, bytes, |data|)
    {
      hide FileSoFar, Conserved, Grew, InodeOk, Packer.Valid, Packer.D, Listed, Piece;
      ghost var d := D();
      b := GetFreeBlock();
      d1 := D();
      if b != -1 {
        var size := if l > BLOCK_SIZE then BLOCK_SIZE else l;
        Fill(b, bytes[|bytes| - l..|bytes| - l + size]);
        PieceWritten(d0, d, d1, D(), n, ino, bytes, data, l, b);
      }
    }

    /** One turn of the loop that copies a file's bytes: entry k of its inode. */
    method CopyPiece(bytes: seq<byte>, l: nat, ino: Inode, k: nat, ghost d0: Disk, ghost n: int, ghost data: seq<int>)
      returns (ok: bool, r: Inode, ghost b: int)
      requires Valid() && l > 0 && k == |data| && ino.indirect < BLOCK_NUM
      requires Conserved(d0) && FileSoFar(d0, D(), n, ino, bytes, data, l)
      modifies image, freemap, this
      ensures ok <==> old(D()).left > if k == 12 then 1 else 0
      ensures ok ==>
        && Valid() && InodeOk(r) && r.indirect < BLOCK_NUM
        && SameHead(ino, r)
        && FileSoFar(d0, D(), n, r, bytes, data + [b], Remaining(|bytes|, k + 1))
    {
      ghost var d := D();
      FileLeft(d0, d, n, ino, bytes, data, l);
      LeftBound(d);
      hide FileSoFar, Conserved, Grew, InodeOk, Packer.Valid, Packer.D, Listed, Piece, Chunks, Remaining;
      ghost var d1;
      var ffb;
      ffb, d1 := WritePiece(bytes, l, ino, d0, n, data);
      ok, r, b := ffb != -1, ino, ffb;
      if ok {
        ok, r := LinkPiece(bytes, l, ino, k, ffb, d0, d, d1, n, data);
      }
    }

    /** The end of that turn: the piece's block becomes entry k of the inode. */
    method LinkPiece(ghost bytes: seq<byte>, ghost l: nat, ino: Inode, k: nat, ffb: nat,
                     ghost d0: Disk, ghost d: Disk, ghost d1: Disk, ghost n: int, ghost data: seq<int>)
      returns (ok: bool, r: Inode)
      requires Valid() && InodeOk(ino) && ino.indirect < BLOCK_NUM && k == |data| <= BLOCK_NUM && ffb < BLOCK_NUM
      requires FileSoFar(d0, d, n, ino, bytes, data, l) && l > 0 && (ino.indirect == 0 <==> k <= 12)
      requires Grew(d, d1, multiset{ffb}) && d1.image == d.image
      requires Sized(D()) && D() == d1.(image := d1.image[ffb := D().image[ffb]])
      requires Listed(D().image, ino, data) && Piece(D().image, ffb, bytes, k)
      modifies image, freemap, this
      ensures ok <==> !(k == 12 && old(D()).left == 0)
      ensures ok ==>
        && Valid() && InodeOk(r) && r.indirect < BLOCK_NUM && SameHead(ino, r)
        && FileSoFar(d0, D(), n, r, bytes, data + [ffb], Remaining(|bytes|, k + 1))
    {
      ghost var d2 := D();
      hide FileSoFar, Conserved, Grew, InodeOk, Packer.Valid, Packer.D, Listed, Piece, LinkEffect, Remaining, Extra;
      ok, r := Link(ino, k, ffb, data);
      if ok {
        FileStep(d0, d, d1, d2, D(), n, ino, r, bytes, data, l, ffb);
      }
    }

    /** The loop that copies a file's bytes, after its inode block n was taken. */
    method CopyBytes(name: Name, bytes: seq<byte>, made: Inode, ghost d0: Disk, ghost n: int)
      returns (ok: bool, ino: Inode, ghost data: seq<int>)
      requires Valid() && InodeOk(made) && made.size == |bytes| && made.indirect == 0
      requires Conserved(d0) && Grew(d0, D(), multiset{n})
      modifies image, freemap, this
      ensures ok ==>
        && Valid() && InodeOk(ino) && FileSoFar(d0, D(), n, ino, bytes, data, 0)
        && SameHead(made, ino)
      ensures !ok ==> Need(File(name, bytes)) > d0.left
    {
      ino := made;
      data := [];
      ok := true;
      var l: nat, k := ino.size, 0;
      FileStart(d0, D(), n, ino, bytes);
      hide FileSoFar, Conserved, Grew, InodeOk, Need, Chunks, Packer.Valid, Packer.D;
      while l != 0 && ok
        invariant ok ==> Valid() && k == |data| && l == Remaining(|bytes|, k)
        invariant ok ==> FileSoFar(d0, D(), n, ino, bytes, data, l)
        invariant ok ==> InodeOk(ino) && SameHead(made, ino) && ino.indirect < BLOCK_NUM
        invariant !ok ==> Need(File(name, bytes)) > d0.left
      {
        FileNeed(d0, D(), n, ino, name, bytes, data, l);
        ghost var b;
        ok, ino, b := CopyPiece(bytes, l, ino, k, d0, n, data);
        data := data + [b];
        k := k + 1;
        l := if l > BLOCK_SIZE then l - BLOCK_SIZE else 0;
      }
    }

    /** The branch of walk for a regular file; false when the image is full. */
    method PackFile(name: Name, bytes: seq<byte>, ghost parent: int) returns (ok: bool, blockNum: int, ghost p: Plan)
      requires Valid() && TreeOk(File(name, bytes))
      modifies image, freemap, this
      ensures ok <==> Need(File(name, bytes)) <= old(D()).left
      ensures ok ==>
        && Valid() && 0 < p.n == blockNum < BLOCK_NUM && Stored(D().image, p, File(name, bytes), parent)
        && Grew(old(D()), D(), Roles(p)) && D().left == old(D()).left - Need(File(name, bytes))
    {
      p := FilePlan(0, 0, []);
      var ino := Uninitialised();
      CStringOf(name, ino.filename[|name| + 1..]);
      var field := CopyName(name, ino.filename);
      ino := ino.(kind := TYPE_FILE, filename := field, size := |bytes|, blocks := BlocksField(|bytes|));
      assert InodeOk(ino) && Need(File(name, bytes)) >= 1;
      ghost var d0 := D();
      hide FileSoFar, Grew, InodeOk, Need, Stored, Roles;
      blockNum := GetFreeBlock();
      if blockNum == -1 {
        return false, blockNum, p;
      }
      ghost var data;
      ok, ino, data := CopyBytes(name, bytes, ino, d0, blockNum);
      if ok {
        ghost var d := D();
        CopyInodeToBlock(blockNum, ino);
        FileDone(d0, d, D(), blockNum, ino, name, bytes, data, parent);
        p := FilePlan(blockNum, ino.indirect, data);
        LeftBound(D());
      }
    }

    /** The branch of walk for a directory: a block for its inode, then the directory itself; parent is nowInodeNum. */
    method PackDir(t: Tree, parent: nat) returns (ok: bool, blockNum: int, ghost p: Plan)
      requires Valid() && TreeOk(t) && t.Dir? && parent < BLOCK_NUM
      modifies image, freemap, this
      ensures ok <==> Need(t) <= old(D()).left
      ensures ok ==>
        && Valid() && 0 < p.n == blockNum < BLOCK_NUM && Stored(D().image, p, t, parent)
        && Grew(old(D()), D(), Roles(p)) && D().left == old(D()).left - Need(t)
      decreases t, 2
    {
      p := FilePlan(0, 0, []);
      var ino := Uninitialised();
      CStringOf(t.name, ino.filename[|t.name| + 1..]);
      var field := CopyName(t.name, ino.filename);
      ino := ino.(size := 0, kind := TYPE_DIR, filename := field);
      ghost var d0 := D();
      assert Need(t) >= 1;
      blockNum := GetFreeBlock();
      ok := blockNum != -1;
      if ok {
        ino := ino.(direct := ino.direct[0 := blockNum][1 := parent]);
        ghost var da, ps := D(), [];
        ok, ino, ps := Walk(t, ino, blockNum, false, parent);
        if ok {
          ghost var d := D();
          CopyInodeToBlock(blockNum, ino);
          DirDone(d0, da, d, D(), blockNum, ino, parent, t, ps);
          p := DirPlan(blockNum, ino.indirect, ps);
          StoredSize(D().image, p, t, parent);
        }
      }
    }

    /** The two branches of walk. */
    method PackEntry(t: Tree, parent: nat) returns (ok: bool, blockNum: int, ghost p: Plan)
      requires Valid() && TreeOk(t) && parent < BLOCK_NUM
      modifies image, freemap, this
      ensures ok <==> Need(t) <= old(D()).left
      ensures ok ==>
        && Valid() && 0 < p.n == blockNum < BLOCK_NUM && Stored(D().image, p, t, parent)
        && Grew(old(D()), D(), Roles(p)) && D().left == old(D()).left - Need(t)
      decreases t, 3
    {
      hide Grew, Stored, Roles, Need, Packer.Valid, Packer.D;
      if t.Dir? {
        ok, blockNum, p := PackDir(t, parent);
      } else {
        ok, blockNum, p := PackFile(t.name, t.bytes, parent);
      }
    }

    /** One turn of walk's loop: pack a kid and make it entry emptyIndex of the directory n. */
    method PackKid(kid: Tree, nowInode: Inode, n: nat, emptyIndex: nat,
                   ghost d0: Disk, ghost parent: int, ghost kids: seq<Tree>, ghost ps: seq<Plan>)
      returns (ok: bool, ino: Inode, ghost ps2: seq<Plan>)
      requires Valid() && TreeOk(kid) && n < BLOCK_NUM && nowInode.indirect < BLOCK_NUM && emptyIndex == |kids| + 2
      requires Conserved(d0) && DirSoFar(d0, D(), nowInode, n, parent, kids, ps)
      modifies image, freemap, this
      ensures ok <==> Need(kid) + (if emptyIndex == 12 then 1 else 0) <= old(D()).left
      ensures ok ==>
        && Valid() && ino.indirect < BLOCK_NUM && SameHead(nowInode, ino)
        && DirSoFar(d0, D(), ino, n, parent, kids + [kid], ps2)
      decreases kid, 4
    {
      ghost var d := D();
      ValidFacts();
      DirRoom(d0, d, nowInode, n, parent, kids, ps);
      hide DirSoFar, Conserved, Grew, InodeOk, Stored, Roles, RolesAll, Need, Packer.Valid, Packer.D;
      ino, ps2 := nowInode, ps;
      var blockNum;
      ghost var p;
      ok, blockNum, p := PackEntry(kid, n);
      if ok {
        ok, ino := LinkKid(nowInode, n, emptyIndex, blockNum, d0, d, parent, kids, ps, kid, p);
        ps2 := ps + [p];
      }
    }

    /** The end of that turn: the kid's block becomes the directory's next entry. */
    method LinkKid(nowInode: Inode, n: nat, emptyIndex: nat, blockNum: nat, ghost d0: Disk, ghost d: Disk,
                   ghost parent: int, ghost kids: seq<Tree>, ghost ps: seq<Plan>, ghost kid: Tree, ghost p: Plan)
      returns (ok: bool, ino: Inode)
      requires Valid() && InodeOk(nowInode) && nowInode.indirect < BLOCK_NUM && emptyIndex == |ps| + 2 <= BLOCK_NUM + 2
      requires nowInode.indirect == 0 <==> emptyIndex <= 12
      requires DirSoFar(d0, d, nowInode, n, parent, kids, ps)
      requires Grew(d, D(), Roles(p)) && Stored(D().image, p, kid, n) && p.n == blockNum < BLOCK_NUM
      modifies image, freemap, this
      ensures ok <==> !(emptyIndex == 12 && old(D()).left == 0)
      ensures ok ==>
        && Valid() && ino.indirect < BLOCK_NUM && SameHead(nowInode, ino)
        && DirSoFar(d0, D(), ino, n, parent, kids + [kid], ps + [p])
    {
      ghost var d1, list := D(), DirList(n, parent, ps);
      assert |list| == |ps| + 2;
      DirListed(d0, d, d1, nowInode, n, parent, kids, ps, p);
      hide DirSoFar, Grew, InodeOk, Stored, Roles, RolesAll, Listed, LinkEffect, DirList, Packer.Valid, Packer.D;
      ok, ino := Link(nowInode, emptyIndex, blockNum, list);
      if ok {
        DirStep(d0, d, d1, D(), nowInode, ino, n, parent, kids, ps, kid, p);
      }
    }

    /** The loop of walk over the files of directory t. */
    method PackKids(t: Tree, nowInode: Inode, n: nat, ghost parent: int)
      returns (ok: bool, ino: Inode, ghost ps: seq<Plan>)
      requires Valid() && TreeOk(t) && t.Dir? && n < BLOCK_NUM && nowInode.indirect < BLOCK_NUM
      requires DirSoFar(D(), D(), nowInode, n, parent, [], [])
      modifies image, freemap, this
      ensures ok <==> NeedInside(t.kids) <= old(D()).left
      ensures ok ==>
        && Valid() && DirSoFar(old(D()), D(), ino, n, parent, t.kids, ps)
        && SameHead(nowInode, ino)
      decreases t, 0
    {
      ghost var d0 := D();
      ValidFacts();
      ino, ps, ok := nowInode, [], true;
      var emptyIndex := 2;
      ghost var kids := [];
      hide DirSoFar, Conserved, Grew, InodeOk, Stored, Roles, RolesAll, Listed, Need, NeedInside;
      hide Packer.Valid, Packer.D;
      while ok && emptyIndex - 2 < |t.kids|
        invariant 2 <= emptyIndex == |kids| + 2 <= |t.kids| + 2 && kids <= t.kids
        invariant ok ==> Valid() && ino.indirect < BLOCK_NUM && SameHead(nowInode, ino)
        invariant ok ==> DirSoFar(d0, D(), ino, n, parent, kids, ps)
        invariant !ok ==> NeedInside(t.kids) > d0.left
      {
        var kid := t.kids[emptyIndex - 2];
        DirNeed(d0, D(), ino, n, parent, t, kids, ps);
        ok, ino, ps := PackKid(kid, ino, n, emptyIndex, d0, parent, kids, ps);
        emptyIndex := emptyIndex + 1;
        kids := kids + [kid];
      }
      if ok {
        assert kids == t.kids;
        DirLeft(d0, D(), ino, n, parent, t.kids, ps);
        ValidFacts();
      }
    }

    /** walk: fills nowInode, the inode of directory t, and packs everything below it. */
    method Walk(t: Tree, nowInode: Inode, n: nat, isRoot: bool, ghost parent: int)
      returns (ok: bool, ino: Inode, ghost ps: seq<Plan>)
      requires Valid() && TreeOk(t) && t.Dir? && n < BLOCK_NUM
      requires InodeOk(nowInode) && nowInode.indirect == 0
      requires parent == if isRoot then n else nowInode.direct[1]
      modifies image, freemap, this
      ensures ok <==> NeedInside(t.kids) <= old(D()).left
      ensures ok ==>
        && Valid() && InodeOk(ino) && DirSoFar(old(D()), D(), ino, n, parent, t.kids, ps)
        && SameHead(nowInode.(blocks := |t.kids| + 2), ino)
      decreases t, 1
    {
      ino := nowInode.(direct := nowInode.direct[0 := n]);
      if isRoot {
        ino := ino.(direct := ino.direct[1 := n]);
      }
      DirStart(D(), ino, n, parent);
      ghost var d0 := D();
      hide DirSoFar, Grew, NeedInside, Packer.Valid, Packer.D;
      ok, ino, ps := PackKids(t, ino, n, parent);
      if ok {
        DirBlocks(d0, D(), ino, n, parent, t.kids, ps, |t.kids| + 2);
        ino := ino.(blocks := |t.kids| + 2);
      }
    }

    /** The byte of the emitted freemap for blocks 8*i to 8*i + 7. */
    method FreemapByte(i: nat) returns (c: byte)
      requires Valid() && i < BLOCK_NUM / 8
      ensures forall j | 0 <= j < 8 :: Bit(c, j) <==> freemap[i * 8 + j]
    {
      c := 0;
      forall k | 0 <= k < 8
        ensures !Bit(0, k)
      {
        ZeroBit(k);
      }
      for j := 0 to 8
        invariant forall k | 0 <= k < 8 :: Bit(c, k) <==> k < j && freemap[i * 8 + k]
      {
        if freemap[i * 8 + j] {
          ghost var c0 := c;
          ByteBound(c, j);
          c := Or(c, Pow2(j));
          forall k | 0 <= k < 8
            ensures Bit(c, k) <==> Bit(c0, k) || k == j
          {
            BitOfOr(c0, Pow2(j), k);
            BitOfPow2(j, k);
          }
        }
      }
    }

    /** The freemap block. */
    method EmitFreemap()
      requires Valid()
      modifies image
      ensures Valid() && D() == old(D()).(image := old(D().image)[1 := D().image[1]])
      ensures forall b | 0 <= b < BLOCK_NUM :: Taken(D().image[1], b) <==> D().used[b]
    {
      var x := image[1];
      for i := 0 to BLOCK_NUM / 8
        invariant |x| == BLOCK_SIZE && Valid() && D() == old(D())
        invariant forall b | 0 <= b < 8 * i :: Bit(x[b / 8], b % 8) <==> freemap[b]
      {
        var c := FreemapByte(i);
        ghost var y := x;
        x := x[i := c];
        forall b | 0 <= b < 8 * (i + 1)
          ensures Bit(x[b / 8], b % 8) <==> freemap[b]
        {
          if b < 8 * i {
            assert x[b / 8] == y[b / 8];
          } else {
            assert b == i * 8 + b % 8;
          }
        }
      }
      Put(1, x);
    }

    /** The superblock. */
    method EmitSuper(unused: nat)
      requires Valid() && unused < WORD32
      modifies image
      ensures Valid() && D() == old(D()).(image := old(D().image)[0 := D().image[0]])
      ensures var s := SuperOf(D().image[0]);
              s == SuperBlock(MAGIC_NUM, BLOCK_NUM, unused, FREEMAP_NUM, s.info) && CString(s.info) == INFO
    {
      var junk := Uninitialised();
      var info := CopyName(INFO, junk.filename);
      CStringOf(INFO, junk.filename[|INFO| + 1..]);
      var s := SuperBlock(MAGIC_NUM, BLOCK_NUM, unused, FREEMAP_NUM, info);
      var x: Block := EncodeSuper(s) + image[0][SUPER_SIZE..];
      SuperRoundTrip(s, x);
      Put(0, x);
    }

    /** main, after its first lines: the image of root directory t, if it fits. */
    method Pack(t: Tree) returns (ok: bool, ghost p: Plan)
      requires Valid() && t.Dir? && TreeOk(t) && t.name == ROOT_NAME
      requires freenum == BLOCK_NUM - (FREEMAP_NUM + 2)
      requires forall b | 0 <= b < BLOCK_NUM :: freemap[b] <==> b <= FREEMAP_NUM + 1
      modifies image, freemap, this
      ensures ok <==> 2 + Need(t) <= BLOCK_NUM
      ensures ok ==> Packed(image[..], p, t) && CString(SuperOf(image[0]).info) == INFO
    {
      p := DirPlan(0, 0, []);
      ghost var d0 := D();
      var rootInode := Uninitialised();
      CStringOf(t.name, rootInode.filename[|t.name| + 1..]);
      var field := CopyName(ROOT_NAME, rootInode.filename);
      rootInode := rootInode.(size := 0, kind := TYPE_DIR, filename := field);
      assert InodeOk(rootInode) && Need(t) == 1 + NeedInside(t.kids);
      hide DirSoFar, InodeOk, Need, NeedInside, Packed, Packer.Valid;
      ghost var ps;
      ok, rootInode, ps := Walk(t, rootInode, FREEMAP_NUM + 1, true, FREEMAP_NUM + 1);
      if ok {
        p := EmitHead(rootInode, t, d0, ps);
      }
    }

    /** The end of main: the superblock, the freemap and the root inode go to their blocks. */
    method EmitHead(rootInode: Inode, ghost t: Tree, ghost d0: Disk, ghost ps: seq<Plan>) returns (ghost p: Plan)
      requires Valid() && InodeOk(rootInode) && t.Dir? && |ps| == |t.kids|
      requires DirSoFar(d0, D(), rootInode, FREEMAP_NUM + 1, FREEMAP_NUM + 1, t.kids, ps)
      requires d0.left == BLOCK_NUM - (FREEMAP_NUM + 2)
      requires forall b | 0 <= b < BLOCK_NUM :: d0.used[b] <==> b <= FREEMAP_NUM + 1
      requires rootInode.kind == TYPE_DIR && rootInode.size == 0 && rootInode.blocks == |ps| + 2
      requires CString(rootInode.filename) == t.name
      modifies image
      ensures Packed(image[..], p, t) && CString(SuperOf(image[0]).info) == INFO
    {
      ghost var d := D();
      ValidFacts();
      hide DirSoFar, InodeOk, Packed, Packer.Valid, Taken, InodeOf, SuperOf, CString;
      EmitSuper(freenum);
      EmitFreemap();
      CopyInodeToBlock(FREEMAP_NUM + 1, rootInode);
      p := DirPlan(FREEMAP_NUM + 1, rootInode.indirect, ps);
      RootDone(d0, d, D(), rootInode, t, ps);
    }
  }

  const ROOT_NAME: Name := [47]

  /** The text in the superblock, in ASCII. */
  const INFO: Name := [
    83, 105, 109, 112, 108, 101, 70, 83, 32, 66, 121, 32, 74, 111, 107, 101, 114, 68, 101, 98, 117, 103
  ]

  /** c | (1 << j) is still a byte. */
  lemma ByteBound(c: byte, j: nat)
    requires j < 8
    ensures Or(c, Pow2(j)) < 256
  {
    assert Pow2(8) == 256 by {
      assert Pow2(4) == 16;
    }
    OrBound(c, Pow2(j), 8);
  }

  lemma {:induction false} NoneUsed(s: seq<bool>)
    requires forall i | 0 <= i < |s| :: !s[i]
    ensures CountUsed(s) == 0
  {
    if s != [] {
      NoneUsed(s[..|s| - 1]);
    }
  }
}
