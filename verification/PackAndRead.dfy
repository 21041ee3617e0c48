/**
 The packer of mkfs/mksfs.c and the reader of kernel/fs.c, one after the other.
 */
module PackAndRead {
  import opened Bytes
  import opened SimpleFs
  import opened FsTree
  import opened Packer
  import opened Reader
  import opened Paths

  /** Start the file system on a packed image, look up a path and read the file there into a buffer of its size. */
  method ReadBack(img: seq<Block>, ghost p: Plan, t: Tree, pos: Pos) returns (isFile: bool, buf: array<byte>)
    requires Packed(img, p, t) && Named(t) && IsPos(t, pos) && Need(t) <= BLOCK_NUM
    ensures isFile <==> Sub(t, pos).File?
    ensures isFile ==> buf[..] == Sub(t, pos).bytes
  {
    FirstBlock(img, p, t);
    hide Packed, Named, IsPos, Sub, Need, PathTo, Lookup, Contents, InodeAt, SuperOf, BlockAt;
    var fs := new FileSystem(img);
    fs.InitFs();
    RoundTrip(img, p, t, pos);
    SizeIsSmall(t, pos);
    var node := fs.LookupInode(NONE, PathTo(t, pos));
    buf := new byte[InodeAt(img, node).size];
    isFile := fs.ReadAll(node, buf);
  }

  lemma FirstBlock(img: seq<Block>, p: Plan, t: Tree)
    requires Packed(img, p, t)
    ensures |img| > 0 && BlockAt(img, 0) == img[0]
  {
  }

  lemma SizeIsSmall(t: Tree, pos: Pos)
    requires IsPos(t, pos) && Need(t) <= BLOCK_NUM
    ensures Sub(t, pos).File? ==> |Sub(t, pos).bytes| <= BLOCK_NUM * BLOCK_SIZE
  {
    SubNeed(t, pos);
  }

  /** The bytes of an ASCII text. */
  function Text(s: string): (b: seq<byte>)
    requires forall i | 0 <= i < |s| :: s[i] < 128 as char
    ensures |b| == |s| && forall i | 0 <= i < |s| :: b[i] == s[i] as int
  {
    seq(|s|, i requires 0 <= i < |s| => s[i] as int)
  }

  /** The path of initThread, /bin/sh, leads to the file sh in the directory bin. */
  lemma BinSh(img: seq<Block>, p: Plan, t: Tree, i: nat, j: nat)
    requires Packed(img, p, t) && Named(t) && IsPos(t, [i, j]) && Sub(t, [i, j]).File?
    requires t.kids[i].name == Text("bin") && Sub(t, [i, j]).name == Text("sh")
    ensures var n := Lookup(img, 2, NONE, Text("/bin/sh"));
            && InodeAt(img, n).kind == TYPE_FILE
            && InodeAt(img, n).size == |Sub(t, [i, j]).bytes| && Contents(img, n) == Sub(t, [i, j]).bytes
  {
    assert [i, j][1..] == [j] && [j][1..] == [];
    assert IsPos(t.kids[i], [j]) && Sub(t.kids[i], [j]) == Sub(t.kids[i].kids[j], []);
    assert NamesTo(t.kids[i], [j]) == [Text("sh")];
    assert NamesTo(t, [i, j]) == [Text("bin"), Text("sh")];
    assert [Text("bin"), Text("sh")][1..] == [Text("sh")];
    assert PathTo(t, [i, j]) == Text("/bin/sh");
    RoundTrip(img, p, t, [i, j]);
  }

  /** For every tree that fits, and every file in it, packing and reading give back the file's bytes. */
  method PackAndRead(t: Tree, pos: Pos) returns (fits: bool, isFile: bool, buf: array<byte>)
    requires t.Dir? && TreeOk(t) && t.name == ROOT_NAME && Named(t) && IsPos(t, pos)
    ensures fits <==> 2 + Need(t) <= BLOCK_NUM
    ensures fits ==> (isFile <==> Sub(t, pos).File?)
    ensures fits && isFile ==> buf[..] == Sub(t, pos).bytes
  {
    isFile, buf := false, new byte[0];
    var packer := new Packer();
    ghost var p;
    fits, p := packer.Pack(t);
    if fits {
      isFile, buf := ReadBack(packer.image[..], p, t, pos);
    }
  }
}
