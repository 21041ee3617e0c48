/**
 The on-disk format of SimpleFS that mkfs/mksfs.c and kernel/fs.c share:
 blocks, inodes (kernel/fs.h) and the numbering of an inode's entries.
 */
module SimpleFs {
  import opened Bits
  import opened Bytes

  const BLOCK_SIZE := 4096
  const BLOCK_NUM := 256
  const FREEMAP_NUM := 1
  const MAGIC_NUM := 0x4D53_4653
  const TYPE_FILE := 0
  const TYPE_DIR := 1
  const NAME_LEN := 32
  const INODE_SIZE := 96
  const WORD32 := 0x1_0000_0000

  type Block = b: seq<byte> | |b| == BLOCK_SIZE witness seq(BLOCK_SIZE, _ => 0)

  type Name = seq<byte>

  datatype Inode = Inode(size: nat, kind: nat, filename: seq<byte>, blocks: nat, direct: seq<nat>, indirect: nat)

  predicate InodeOk(i: Inode) {
    && i.size < WORD32 && i.kind < WORD32 && i.blocks < WORD32 && i.indirect < WORD32
    && |i.filename| == NAME_LEN && |i.direct| == 12
    && forall k | 0 <= k < 12 :: i.direct[k] < WORD32
  }

  /** The inodes differ at most in the blocks they name. */
  predicate SameHead(a: Inode, b: Inode) {
    a.size == b.size && a.kind == b.kind && a.filename == b.filename && a.blocks == b.blocks
  }

  // ----- the bytes of an inode

  function Words(ws: seq<nat>): (b: seq<byte>)
    ensures |b| == 4 * |ws|
  {
    if ws == [] then [] else ToBytes(ws[0], 4) + Words(ws[1..])
  }

  function Unwords(b: seq<byte>, n: nat): (ws: seq<nat>)
    requires |b| == 4 * n
    ensures |ws| == n
  {
    if n == 0 then [] else [FromBytes(b[..4])] + Unwords(b[4..], n - 1)
  }

  function Encode(i: Inode): (b: seq<byte>)
    requires InodeOk(i)
    ensures |b| == INODE_SIZE
  {
    ToBytes(i.size, 4) + ToBytes(i.kind, 4) + i.filename + ToBytes(i.blocks, 4) + Words(i.direct)
    + ToBytes(i.indirect, 4)
  }

  /** The inode whose bytes a block starts with. */
  function InodeOf(b: Block): Inode {
    Inode(WordAt(b, 0, 4), WordAt(b, 4, 4), b[8..40], WordAt(b, 40, 4),
          Unwords(b[44..92], 12), WordAt(b, 92, 4))
  }

  lemma {:induction false} WordsRoundTrip(ws: seq<nat>)
    requires forall k | 0 <= k < |ws| :: ws[k] < WORD32
    ensures Unwords(Words(ws), |ws|) == ws
  {
    if ws != [] {
      Base4();
      FromTo(ws[0], 4);
      WordsRoundTrip(ws[1..]);
      assert Words(ws)[..4] == ToBytes(ws[0], 4);
      assert Words(ws)[4..] == Words(ws[1..]);
    }
  }

  lemma Base4()
    ensures Base(4) == WORD32
  {
    assert Base(1) == 256 && Base(2) == 0x1_0000 && Base(3) == 0x100_0000;
  }

  /** Slices of a sequence made of six parts. */
  lemma SixParts(a: seq<byte>, b: seq<byte>, c: seq<byte>, d: seq<byte>, e: seq<byte>, f: seq<byte>, rest: seq<byte>)
    requires |a| == 4 && |b| == 4 && |c| == 32 && |d| == 4 && |e| == 48 && |f| == 4
    ensures var s := a + b + c + d + e + f + rest;
            && |s| >= 96 && s[0..4] == a && s[4..8] == b && s[8..40] == c && s[40..44] == d && s[44..92] == e
            && s[92..96] == f
  {
  }

  /** What copyInodeToBlock writes, InodeOf reads. */
  lemma InodeRoundTrip(i: Inode, b: Block)
    requires InodeOk(i) && b[..INODE_SIZE] == Encode(i)
    ensures InodeOf(b) == i
  {
    Base4();
    var e := Words(i.direct);
    assert b == Encode(i) + b[INODE_SIZE..];
    SixParts(ToBytes(i.size, 4), ToBytes(i.kind, 4), i.filename, ToBytes(i.blocks, 4), e, ToBytes(i.indirect, 4),
             b[INODE_SIZE..]);
    hide Encode, ToBytes, FromBytes, Words, Unwords;
    FromTo(i.size, 4);
    FromTo(i.kind, 4);
    FromTo(i.blocks, 4);
    FromTo(i.indirect, 4);
    WordsRoundTrip(i.direct);
  }

  // ----- the superblock and the freemap

  datatype SuperBlock = SuperBlock(magic: nat, blocks: nat, unusedBlocks: nat, freemapBlocks: nat, info: seq<byte>)

  const SUPER_SIZE := 48

  function EncodeSuper(s: SuperBlock): (b: seq<byte>)
    requires |s.info| == NAME_LEN
    ensures |b| == SUPER_SIZE
  {
    Words([s.magic, s.blocks, s.unusedBlocks, s.freemapBlocks]) + s.info
  }

  function SuperOf(b: Block): SuperBlock {
    var w := Unwords(b[..16], 4);
    SuperBlock(w[0], w[1], w[2], w[3], b[16..48])
  }

  lemma SuperRoundTrip(s: SuperBlock, b: Block)
    requires |s.info| == NAME_LEN && b[..SUPER_SIZE] == EncodeSuper(s)
    requires s.magic < WORD32 && s.blocks < WORD32 && s.unusedBlocks < WORD32 && s.freemapBlocks < WORD32
    ensures SuperOf(b) == s
  {
    hide Words, Unwords;
    var ws := [s.magic, s.blocks, s.unusedBlocks, s.freemapBlocks];
    WordsRoundTrip(ws);
    assert b[..16] == b[..SUPER_SIZE][..16] == Words(ws);
    assert b[16..48] == b[..SUPER_SIZE][16..48] == s.info;
  }

  /** What the freemap says of block n: bit n % 8 of byte n / 8. */
  predicate Taken(freemap: Block, n: nat)
    requires n < 8 * BLOCK_SIZE
  {
    Bit(freemap[n / 8], n % 8)
  }

  // ----- blocks and entries

  /** The block at an address the image covers; memory beyond it is not described and reads as zero. */
  function BlockAt(img: seq<Block>, n: int): Block {
    if 0 <= n < |img| then img[n] else seq(BLOCK_SIZE, _ => 0)
  }

  /** The block number that entry i of an inode names: twelve direct ones, the rest in the indirect block. */
  function EntryAt(img: seq<Block>, ino: Inode, i: int): nat {
    if 0 <= i < 12 && |ino.direct| == 12 then ino.direct[i]
    else if 12 <= i < 12 + 1024 then WordAt(BlockAt(img, ino.indirect), 4 * (i - 12), 4)
    else 0
  }

  /** The entries of an inode are the numbers in list. */
  ghost predicate Listed(img: seq<Block>, ino: Inode, list: seq<int>) {
    forall i | 0 <= i < |list| :: EntryAt(img, ino, i) == list[i]
  }

  /** A C string: the bytes before the first NUL. */
  function CString(s: seq<byte>): (r: seq<byte>)
    ensures |r| <= |s| && r == s[..|r|] && 0 !in r
    ensures |r| < |s| ==> s[|r|] == 0
  {
    if s == [] || s[0] == 0 then [] else [s[0]] + CString(s[1..])
  }

  /** A name that fits the filename field and stands for itself there. */
  predicate NameOk(name: Name) {
    |name| < NAME_LEN && 0 !in name
  }

  /** What the copying loops over filename leave: the name, a NUL, and what was there before. */
  function NameField(name: Name, junk: seq<byte>): (r: seq<byte>)
    requires NameOk(name) && |junk| == NAME_LEN
    ensures |r| == NAME_LEN
  {
    name + [0] + junk[|name| + 1..]
  }

  lemma {:induction false} CStringOf(name: Name, rest: seq<byte>)
    requires 0 !in name
    ensures CString(name + [0] + rest) == name
  {
    var s := name + [0] + rest;
    if name != [] {
      CStringOf(name[1..], rest);
      assert s[1..] == name[1..] + [0] + rest;
    }
  }

  /** The number of blocks that n bytes take. */
  function Chunks(n: nat): nat { (n + BLOCK_SIZE - 1) / BLOCK_SIZE }

  /** The blocks field of a file's inode, (size - 1) / BLOCK_SIZE + 1 in 32 bits. */
  function BlocksField(size: nat): nat {
    (size - 1) % WORD32 / BLOCK_SIZE + 1
  }

  /** The field is right except for an empty file. */
  lemma BlocksFieldIff(size: nat)
    requires size < WORD32
    ensures BlocksField(size) == Chunks(size) <==> size != 0
  {
  }
}
