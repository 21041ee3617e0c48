/**
 SimpleFS images byte by byte: the structures of kernel/fs.h with their fields at
 fixed offsets, least significant byte first, as they are for a reader that knows
 nothing else.
 */
module ImageFormat {
  import opened Bits
  import opened Bytes
  import opened SimpleFs
  import opened FsTree

  /** The uint32 at offset o. */
  function U32(b: Block, o: nat): nat
    requires o + 4 <= 4096
  {
    (b[o] as int) + 0x100 * (b[o + 1] as int) + 0x1_0000 * (b[o + 2] as int) + 0x100_0000 * (b[o + 3] as int)
  }

  lemma U32Is(b: Block, o: nat)
    requires o + 4 <= 4096
    ensures U32(b, o) == WordAt(b, o, 4)
  {
    FourBytes(b[o..o + 4]);
  }

  lemma FourBytes(s: seq<byte>)
    requires |s| == 4
    ensures FromBytes(s)
         == (s[0] as int) + 0x100 * (s[1] as int) + 0x1_0000 * (s[2] as int) + 0x100_0000 * (s[3] as int)
  {
    assert s[1..] == [s[1], s[2], s[3]];
    assert s[1..][1..] == [s[2], s[3]];
    assert s[1..][1..][1..] == [s[3]];
    assert s[1..][1..][1..][1..] == [];
  }

  /** A name with its NUL at offset o, in 32 bytes. */
  predicate NameAt(b: Block, o: nat, name: seq<byte>)
    requires o + 32 <= 4096
  {
    |name| <= 32 && b[o..o + |name|] == name && 0 !in name && (|name| < 32 ==> b[o + |name|] == 0)
  }

  lemma NameIs(b: Block, o: nat)
    requires o + 32 <= 4096
    ensures NameAt(b, o, CString(b[o..o + 32]))
  {
    var s, name := b[o..o + 32], CString(b[o..o + 32]);
    assert b[o..o + |name|] == s[..|name|];
    if |name| < 32 {
      assert s[|name|] == b[o + |name|];
    }
  }

  /**
   Entry i of the inode at the start of b: twelve direct block numbers, then 1024 in the block that the
   next word names.
   */
  function EntryIn(img: seq<Block>, b: Block, i: nat): nat {
    if i < 12 then U32(b, 44 + 4 * i)
    else if i < 1036 && U32(b, 92) < |img| then U32(img[U32(b, 92)], 4 * (i - 12))
    else 0
  }

  lemma {:induction false} UnwordsAt(s: seq<byte>, n: nat, i: nat)
    requires |s| == 4 * n && i < n
    ensures Unwords(s, n)[i] == FromBytes(s[4 * i..4 * i + 4])
    decreases n
  {
    if i > 0 {
      UnwordsAt(s[4..], n - 1, i - 1);
      SliceOfSlice(s, 4, |s|, 4 * (i - 1), 4 * (i - 1) + 4);
      assert s[4..] == s[4..|s|];
    }
  }

  lemma SliceOfSlice(s: seq<byte>, a: nat, b: nat, c: nat, d: nat)
    requires a <= b <= |s| && c <= d <= b - a
    ensures s[a..b][c..d] == s[a + c..a + d]
  {
    var l, r := s[a..b][c..d], s[a + c..a + d];
    forall j | 0 <= j < d - c
      ensures l[j] == r[j]
    {
      assert s[a..b][c + j] == s[a + (c + j)];
    }
  }

  lemma EntryIs(img: seq<Block>, b: Block, i: nat)
    requires i < 1036 && (i >= 12 ==> InodeOf(b).indirect < |img|)
    ensures EntryIn(img, b, i) == EntryAt(img, InodeOf(b), i)
  {
    U32Is(b, 92);
    if i < 12 {
      UnwordsAt(b[44..92], 12, i);
      SliceOfSlice(b, 44, 92, 4 * i, 4 * i + 4);
      U32Is(b, 44 + 4 * i);
    } else {
      U32Is(img[InodeOf(b).indirect], 4 * (i - 12));
    }
  }

  /** An inode's fields, at their offsets in kernel/fs.h. */
  ghost predicate InodeBytes(b: Block, size: nat, kind: nat, name: Name, blocks: nat) {
    U32(b, 0) == size && U32(b, 4) == kind && NameAt(b, 8, name) && U32(b, 40) == blocks
  }

  lemma InodeIs(b: Block)
    ensures var i := InodeOf(b); InodeBytes(b, i.size, i.kind, CString(i.filename), i.blocks)
  {
    U32Is(b, 0);
    U32Is(b, 4);
    U32Is(b, 40);
    NameIs(b, 8);
  }

  /** A file: its size, type 0, its name, the number of its blocks (2^20 if it is empty), and the blocks in order. */
  lemma FileBytes(img: seq<Block>, p: Plan, t: Tree, parent: int)
    requires Stored(img, p, t, parent) && t.File? && |img| == 256 && |t.bytes| < 0x1_0000_0000
    requires p.ind < |img| && |p.data| <= 1036
    ensures 0 < p.n < 256
    ensures InodeBytes(img[p.n], |t.bytes|, 0, t.name, if t.bytes == [] then 0x10_0000 else (|t.bytes| + 4095) / 4096)
    ensures |p.data| == (|t.bytes| + 4095) / 4096
    ensures forall i | 0 <= i < |p.data| :: EntryIn(img, img[p.n], i) == p.data[i]
    ensures forall i | 0 <= i < |p.data| :: Piece(img, p.data[i], t.bytes, i)
  {
    InodeIs(img[p.n]);
    var ino := InodeOf(img[p.n]);
    forall i | 0 <= i < |p.data|
      ensures EntryIn(img, img[p.n], i) == p.data[i]
    {
      EntryIs(img, img[p.n], i);
      assert EntryAt(img, ino, i) == p.data[i];
    }
  }

  /** A directory: size 0, type 1, its name, and as entries itself, the one above, and its files in order. */
  lemma DirBytes(img: seq<Block>, p: Plan, t: Tree, parent: int)
    requires Stored(img, p, t, parent) && t.Dir? && |img| == 256 && p.ind < |img| && |t.kids| + 2 <= 1036
    ensures 0 < p.n < 256 && |p.kids| == |t.kids|
    ensures InodeBytes(img[p.n], 0, 1, t.name, |t.kids| + 2)
    ensures EntryIn(img, img[p.n], 0) == p.n && EntryIn(img, img[p.n], 1) == parent
    ensures forall i | 0 <= i < |t.kids| :: EntryIn(img, img[p.n], i + 2) == p.kids[i].n
  {
    InodeIs(img[p.n]);
    var ino, list := InodeOf(img[p.n]), DirList(p.n, parent, p.kids);
    forall i | 0 <= i < |list|
      ensures EntryIn(img, img[p.n], i) == list[i]
    {
      EntryIs(img, img[p.n], i);
      assert EntryAt(img, ino, i) == list[i];
    }
    assert list[0] == p.n && list[1] == parent;
    forall i | 0 <= i < |t.kids|
      ensures EntryIn(img, img[p.n], i + 2) == p.kids[i].n
    {
      assert list[i + 2] == p.kids[i].n;
    }
  }

  /** The superblock: magic number, block count, unused blocks and freemap blocks; then the freemap and the root. */
  lemma ImageBytes(img: seq<Block>, p: Plan, t: Tree)
    requires Packed(img, p, t)
    ensures |img| == 256 && p.n == 2
    ensures U32(img[0], 0) == 0x4D53_4653 && U32(img[0], 4) == 256 && U32(img[0], 12) == 1
    ensures U32(img[0], 8) == 256 - |AllRoles(p)|
    ensures forall b | 0 <= b < 256 :: Bit(img[1][b / 8], b % 8) <==> b in AllRoles(p)
  {
    SuperIs(img[0]);
    forall b | 0 <= b < 256
      ensures Bit(img[1][b / 8], b % 8) <==> b in AllRoles(p)
    {
      assert Taken(img[1], b) <==> b in AllRoles(p);
    }
  }

  lemma SuperIs(b: Block)
    ensures var s := SuperOf(b);
            && U32(b, 0) == s.magic && U32(b, 4) == s.blocks && U32(b, 8) == s.unusedBlocks
            && U32(b, 12) == s.freemapBlocks
  {
    forall i: nat | i < 4
      ensures Unwords(b[..16], 4)[i] == U32(b, 4 * i)
    {
      UnwordsAt(b[..16], 4, i);
      SliceOfSlice(b, 0, 16, 4 * i, 4 * i + 4);
      assert b[..16] == b[0..16];
      U32Is(b, 4 * i);
    }
  }
}
