/**
 The kernel's reader of SimpleFS images, kernel/fs.c.
 */
module Reader {
  import opened Bytes
  import opened SimpleFs

  const SLASH: byte := 47
  const DOT: byte := 46

  /** The null pointer, where lookup takes or returns an inode. */
  const NONE := -1

  /** Conversion of a uint32 to int. */
  function Int32(w: nat): int {
    if w < 0x8000_0000 then w else w - WORD32
  }

  function InodeAt(img: seq<Block>, n: int): Inode { InodeOf(BlockAt(img, n)) }

  // ----- what lookup computes

  /** The part of a path before the first slash. */
  function Component(path: seq<byte>): (c: seq<byte>)
    ensures |c| <= |path| && c == path[..|c|] && SLASH !in c
    ensures |c| < |path| ==> path[|c|] == SLASH
  {
    if path == [] || path[0] == SLASH then [] else [path[0]] + Component(path[1..])
  }

  /** The part after the first slash. */
  function Rest(path: seq<byte>): (r: seq<byte>)
    ensures path != [] ==> |r| < |path|
  {
    var n := |Component(path)|;
    if n < |path| then path[n + 1..] else path[n..]
  }

  /** The first file of a directory from entry i on that has this name, or NONE. */
  function Match(img: seq<Block>, ino: Inode, name: seq<byte>, i: int): int
    decreases Int32(ino.blocks) - i
  {
    if i >= Int32(ino.blocks) then NONE
    else if CString(InodeAt(img, EntryAt(img, ino, i)).filename) == name then EntryAt(img, ino, i)
    else Match(img, ino, name, i + 1)
  }

  /** The inode block that a path leads to from inode block node. */
  function Lookup(img: seq<Block>, root: int, node: int, path: seq<byte>): int
    decreases |path|
  {
    var absolute := path != [] && path[0] == SLASH;
    var from := if absolute || node == NONE then root else node;
    var path := if absolute then path[1..] else path;
    var ino := InodeAt(img, from);
    if path == [] then from
    else if ino.kind != TYPE_DIR then NONE
    else
      var target := Component(path);
      if target == [DOT] then Lookup(img, root, from, Rest(path))
      else if target == [DOT, DOT] then Lookup(img, root, EntryAt(img, ino, 1), Rest(path))
      else
        var found := Match(img, ino, target, 2);
        if found == NONE then NONE else Lookup(img, root, found, Rest(path))
  }

  // ----- what readall copies

  /** The bytes of blocks k to b - 1 of an inode's list, at most l of them. */
  function Gather(img: seq<Block>, ino: Inode, k: int, b: int, l: nat): (r: seq<byte>)
    ensures |r| <= l
    decreases b - k
  {
    if k >= b then []
    else
      var size := if l >= BLOCK_SIZE then BLOCK_SIZE else l;
      BlockAt(img, EntryAt(img, ino, k))[..size] + Gather(img, ino, k + 1, b, l - size)
  }

  lemma GatherStep(img: seq<Block>, ino: Inode, k: int, b: int, l: nat)
    ensures var size := if l >= BLOCK_SIZE then BLOCK_SIZE else l;
            Gather(img, ino, k, b, l)
            == if k >= b then [] else BlockAt(img, EntryAt(img, ino, k))[..size] + Gather(img, ino, k + 1, b, l - size)
  {
  }

  /** What readall copies for an inode. */
  function Contents(img: seq<Block>, node: int): seq<byte> {
    var ino := InodeAt(img, node);
    Gather(img, ino, 0, Int32(ino.blocks), ino.size)
  }

  lemma Regroup(a: seq<byte>, b: seq<byte>, c: seq<byte>)
    ensures a + (b + c) == a + b + c
  {
  }

  lemma {:induction false} GatherSplit(img: seq<Block>, ino: Inode, k: int, m: int, b: int, l: nat)
    requires k <= m <= b
    ensures var g := Gather(img, ino, k, m, l); Gather(img, ino, k, b, l) == g + Gather(img, ino, m, b, l - |g|)
    decreases m - k
  {
    hide BlockAt, EntryAt;
    var h := Gather(img, ino, m, b, l - |Gather(img, ino, k, m, l)|);
    if k == m {
      assert Gather(img, ino, k, b, l) == [] + h;
    } else {
      var size := if l >= BLOCK_SIZE then BLOCK_SIZE else l;
      GatherSplit(img, ino, k + 1, m, b, l - size);
      Regroup(BlockAt(img, EntryAt(img, ino, k))[..size], Gather(img, ino, k + 1, m, l - size), h);
    }
  }

  class FileSystem {
    const image: seq<Block>
    var rootInode: int
    var freemap: int

    constructor (image: seq<Block>)
      ensures this.image == image
    {
      this.image := image;
      rootInode := NONE;
      freemap := NONE;
    }

    /** initFs */
    method InitFs()
      modifies this
      ensures freemap == 1 && rootInode == SuperOf(BlockAt(image, 0)).freemapBlocks + 1
    {
      freemap := 1;
      var spBlock := SuperOf(BlockAt(image, 0));
      rootInode := spBlock.freemapBlocks + 1;
    }

    /** One of lookup's loops: entries i to bound - 1 of a directory; the block found, or NONE. */
    method FindIn(ino: Inode, name: seq<byte>, i: int, bound: int) returns (r: int)
      requires bound == Int32(ino.blocks) || i <= bound <= Int32(ino.blocks)
      ensures r != NONE ==> r == Match(image, ino, name, i)
      ensures r == NONE ==> Match(image, ino, name, i) == if i <= bound then Match(image, ino, name, bound) else NONE
    {
      var k := i;
      while k < bound
        invariant i <= k && (i <= bound ==> k <= bound) && Match(image, ino, name, i) == Match(image, ino, name, k)
      {
        var candidate := EntryAt(image, ino, k);
        if CString(InodeAt(image, candidate).filename) == name {
          return candidate;
        }
        k := k + 1;
      }
      return NONE;
    }

    /** The two ways lookup searches a directory: with and without an indirect block. */
    method FindEntry(ino: Inode, target: seq<byte>) returns (found: int)
      ensures found == Match(image, ino, target, 2)
    {
      var blockNum := Int32(ino.blocks);
      if blockNum <= 12 {
        found := FindIn(ino, target, 2, blockNum);
      } else {
        found := FindIn(ino, target, 2, 12);
        if found == NONE {
          found := FindIn(ino, target, 12, blockNum);
        }
      }
    }

    /** Copies the first component of a path to cTarget; rest is where filename then points. */
    method NextComponent(filename: seq<byte>) returns (target: seq<byte>, rest: seq<byte>)
      ensures target == Component(filename) && rest == Rest(filename)
    {
      target := [];
      var i := 0;
      while i < |filename| && filename[i] != SLASH
        invariant i <= |Component(filename)| && target == filename[..i]
      {
        target := target + [filename[i]];
        i := i + 1;
      }
      rest := filename[i..];
      if rest != [] {
        rest := rest[1..];
      }
    }

    /** lookup */
    method LookupInode(node: int, filename: seq<byte>) returns (r: int)
      ensures r == Lookup(image, rootInode, node, filename)
      decreases |filename|
    {
      hide InodeOf, BlockAt, Component, Rest, Match, EntryAt;
      var node, filename := node, filename;
      if filename != [] && filename[0] == SLASH {
        node := rootInode;
        filename := filename[1..];
      }
      if node == NONE {
        node := rootInode;
      }
      if filename == [] {
        return node;
      }
      var ino := InodeAt(image, node);
      if ino.kind != TYPE_DIR {
        return NONE;
      }
      var target, rest := NextComponent(filename);
      if target == [DOT] {
        r := LookupInode(node, rest);
      } else if target == [DOT, DOT] {
        r := LookupInode(EntryAt(image, ino, 1), rest);
      } else {
        var found := FindEntry(ino, target);
        if found == NONE {
          return NONE;
        }
        r := LookupInode(found, rest);
      }
    }

    /** copyByteToBuf, to offset at of the buffer. */
    method CopyByteToBuf(src: Block, buf: array<byte>, at: nat, length: nat)
      requires length <= BLOCK_SIZE && at + length <= buf.Length
      modifies buf
      ensures buf[at..at + length] == src[..length]
      ensures forall i | 0 <= i < at || at + length <= i < buf.Length :: buf[i] == old(buf[i])
    {
      for i := 0 to length
        invariant buf[at..at + i] == src[..i]
        invariant forall k | 0 <= k < at || at + i <= k < buf.Length :: buf[k] == old(buf[k])
      {
        buf[at + i] := src[i];
        assert buf[at..at + i + 1] == buf[at..at + i] + [src[i]];
        assert src[..i + 1] == src[..i] + [src[i]];
      }
    }

    /** One of readall's loops: entries from to bound - 1; at and l are its buf pointer and count. */
    method ReadBlocks(ino: Inode, from: nat, bound: int, buf: array<byte>, at: nat, l: nat) returns (at2: nat, l2: nat)
      requires |ino.direct| == 12 && at + l <= buf.Length
      modifies buf
      ensures at2 + l2 == at + l && at <= at2
      ensures buf[..at2] == old(buf[..at]) + Gather(image, ino, from, bound, l)
      ensures forall i | at2 <= i < buf.Length :: buf[i] == old(buf[i])
    {
      hide EntryAt, BlockAt, Gather;
      at2, l2 := at, l;
      var i := from;
      while i < bound
        invariant from <= i && at <= at2 && at2 + l2 == at + l
        invariant buf[..at2] + Gather(image, ino, i, bound, l2) == old(buf[..at]) + Gather(image, ino, from, bound, l)
        invariant forall k | at2 <= k < buf.Length :: buf[k] == old(buf[k])
      {
        ghost var done := buf[..at2];
        GatherStep(image, ino, i, bound, l2);
        var src := BlockAt(image, EntryAt(image, ino, i));
        var copySize := if l2 >= 4096 then 4096 else l2;
        CopyByteToBuf(src, buf, at2, copySize);
        assert buf[..at2 + copySize] == done + src[..copySize];
        Regroup(done, src[..copySize], Gather(image, ino, i + 1, bound, l2 - copySize));
        at2 := at2 + copySize;
        l2 := l2 - copySize;
        i := i + 1;
      }
      GatherStep(image, ino, i, bound, l2);
    }

    /** readall's branch for files with an indirect block. */
    method ReadLong(ino: Inode, b: int, buf: array<byte>) returns (at: nat)
      requires 12 < b && |ino.direct| == 12 && ino.size <= buf.Length
      modifies buf
      ensures at <= buf.Length && buf[..at] == Gather(image, ino, 0, b, ino.size)
      ensures forall i | at <= i < buf.Length :: buf[i] == old(buf[i])
    {
      hide Gather;
      var l: nat := ino.size;
      ghost var none, g := buf[..0], Gather(image, ino, 0, 12, l);
      GatherSplit(image, ino, 0, 12, b, l);
      at, l := ReadBlocks(ino, 0, 12, buf, 0, l);
      assert buf[..at] == none + g == g;
      at, l := ReadBlocks(ino, 12, b, buf, at, l);
    }

    /**
     readall; false stands for its panic on a directory. It may count more blocks than an inode can name, as
     long as nothing is left to copy by then: such entries are read, and not used.
     */
    method ReadAll(node: int, buf: array<byte>) returns (ok: bool)
      requires var ino := InodeAt(image, node);
        ino.kind == TYPE_FILE ==>
          && ino.size < 0x8000_0000 && ino.size <= buf.Length
          && (Int32(ino.blocks) <= 12 + 1024 || ino.size <= (12 + 1024) * BLOCK_SIZE)
      modifies buf
      ensures ok <==> InodeAt(image, node).kind == TYPE_FILE
      ensures ok ==> var r := Contents(image, node);
        |r| <= buf.Length && buf[..|r|] == r && forall i | |r| <= i < buf.Length :: buf[i] == old(buf[i])
      ensures !ok ==> buf[..] == old(buf[..])
    {
      var ino := InodeAt(image, node);
      assert |ino.direct| == 12;
      hide InodeOf, Gather;
      if ino.kind != TYPE_FILE {
        return false;
      }
      ok := true;
      var b := Int32(ino.blocks);
      if b <= 12 {
        ghost var none := buf[..0];
        var at, l := ReadBlocks(ino, 0, b, buf, 0, ino.size);
        assert buf[..at] == none + Contents(image, node) == Contents(image, node);
      } else {
        var at := ReadLong(ino, b, buf);
      }
    }
  }
}
