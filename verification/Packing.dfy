/**
 The state of the packer and how a step may change it: which blocks are taken,
 how many are left, and that nothing written before is lost.
 */
module Packing {
  import opened Bytes
  import opened SimpleFs
  import opened FsTree

  /** Image, freemap and freenum. */
  datatype Disk = Disk(image: seq<Block>, used: seq<bool>, left: int)

  function CountUsed(s: seq<bool>): nat {
    if s == [] then 0 else CountUsed(s[..|s| - 1]) + if s[|s| - 1] then 1 else 0
  }

  predicate Sized(d: Disk) {
    |d.image| == BLOCK_NUM && |d.used| == BLOCK_NUM
  }

  /** Every block is counted once, as free or as used. */
  predicate Conserved(d: Disk) {
    Sized(d) && d.left + CountUsed(d.used) == BLOCK_NUM
  }

  lemma {:induction false} CountTake(s: seq<bool>, i: nat)
    requires i < |s| && !s[i]
    ensures CountUsed(s[i := true]) == CountUsed(s) + 1
  {
    var t := s[i := true];
    if i == |s| - 1 {
      assert t[..|s| - 1] == s[..|s| - 1];
    } else {
      assert t[..|s| - 1] == s[..|s| - 1][i := true];
      CountTake(s[..|s| - 1], i);
    }
  }

  lemma {:induction false} CountBound(s: seq<bool>)
    ensures CountUsed(s) <= |s|
    ensures CountUsed(s) == |s| <==> forall i | 0 <= i < |s| :: s[i]
  {
    if s != [] {
      var rest := s[..|s| - 1];
      CountBound(rest);
      assert forall i | 0 <= i < |rest| :: rest[i] == s[i];
    }
  }

  /** d2 is d with exactly the blocks of m taken, one role each; every block used before keeps its bytes. */
  ghost predicate Grew(d: Disk, d2: Disk, m: multiset<int>) {
    && Sized(d) && Sized(d2)
    && (forall b | b in m :: 0 <= b < BLOCK_NUM && !d.used[b] && m[b] == 1)
    && (forall b | 0 <= b < BLOCK_NUM :: d2.used[b] <==> d.used[b] || b in m)
    && d2.left == d.left - |m|
    && (forall b | 0 <= b < BLOCK_NUM && d.used[b] :: d2.image[b] == d.image[b])
  }

  lemma GrewThen(d: Disk, d1: Disk, d2: Disk, m1: multiset<int>, m2: multiset<int>)
    requires Grew(d, d1, m1) && Grew(d1, d2, m2)
    ensures Grew(d, d2, m1 + m2)
  {
    forall b | b in m1 + m2
      ensures 0 <= b < BLOCK_NUM && !d.used[b] && (m1 + m2)[b] == 1
    {
      assert b in m1 || b in m2;
    }
  }

  /** Writing to a block that was taken since d. */
  lemma GrewWrite(d: Disk, d1: Disk, d2: Disk, m: multiset<int>, b: int)
    requires Grew(d, d1, m) && b in m && Sized(d2) && d2.used == d1.used && d2.left == d1.left
    requires forall c | 0 <= c < BLOCK_NUM && c != b :: d2.image[c] == d1.image[c]
    ensures Grew(d, d2, m)
  {
  }

  // ----- linking one more entry into an inode

  /**
   What the step changes outside the inode: a fresh indirect block if it needs the first one, and that
   block's bytes.
   */
  ghost predicate LinkEffect(d: Disk, d2: Disk, ind: int, ind2: int) {
    && Sized(d) && Sized(d2)
    && (forall b | 0 <= b < BLOCK_NUM && (ind2 == 0 || b != ind2) :: d2.image[b] == d.image[b])
    && if ind2 == ind then d2.used == d.used && d2.left == d.left
       else
         && ind == 0 && 0 < ind2 < BLOCK_NUM && !d.used[ind2]
         && d2.used == d.used[ind2 := true] && d2.left == d.left - 1
  }

  lemma GrewLink(d: Disk, d1: Disk, d2: Disk, m: multiset<int>, ind: int, ind2: int)
    requires Grew(d, d1, m + Index(ind)) && LinkEffect(d1, d2, ind, ind2) && 0 <= ind
    ensures Grew(d, d2, m + Index(ind2))
  {
    var m2 := m + Index(ind2);
    if ind != ind2 {
      assert m + Index(ind) == m;
      forall b | b in m2
        ensures 0 <= b < BLOCK_NUM && !d.used[b] && m2[b] == 1
      {
        assert b in m || b == ind2;
      }
      assert ind2 in m2;
    } else if ind != 0 {
      assert ind in m2;
    }
  }

  /** Entry i is num, the earlier ones are as they were. */
  lemma LinkDirect(img: seq<Block>, img2: seq<Block>, ino: Inode, list: seq<int>, num: nat)
    requires |ino.direct| == 12 && |list| < 12 && Listed(img, ino, list)
    ensures Listed(img2, ino.(direct := ino.direct[|list| := num]), list + [num])
  {
    var ino2 := ino.(direct := ino.direct[|list| := num]);
    forall i | 0 <= i < |list| + 1
      ensures EntryAt(img2, ino2, i) == (list + [num])[i]
    {
      assert i < |list| ==> EntryAt(img, ino, i) == list[i];
    }
  }

  lemma LinkIndirect(img: seq<Block>, img2: seq<Block>, ino: Inode, ind: nat, list: seq<int>, num: nat)
    requires |ino.direct| == 12 && 12 <= |list| < 12 + 1024 && Listed(img, ino, list) && num < WORD32
    requires (ino.indirect == 0 <==> |list| <= 12) && (ino.indirect != 0 ==> ind == ino.indirect)
    requires 0 < ind < |img| && |img2| == |img|
    requires img2[ind] == PutWord(img[ind], 4 * (|list| - 12), 4, num)
    ensures Listed(img2, ino.(indirect := ind), list + [num])
  {
    var ino2 := ino.(indirect := ind);
    Base4();
    forall i | 0 <= i < |list| + 1
      ensures EntryAt(img2, ino2, i) == (list + [num])[i]
    {
      if i < |list| {
        assert EntryAt(img, ino, i) == list[i];
        if i >= 12 {
          OtherWordKept(img[ind], 4 * (|list| - 12), 4, num, 4 * (i - 12), 4);
        }
      } else {
        WordAtPut(img[ind], 4 * (|list| - 12), 4, num);
      }
    }
  }

  // ----- copying a file

  function Remaining(len: nat, k: nat): nat {
    if BLOCK_SIZE * k <= len then len - BLOCK_SIZE * k else 0
  }

  /** The first pieces of a file are in place: inode block n, blocks data, l bytes still to copy. */
  ghost predicate FileSoFar(d0: Disk, d: Disk, n: int, ino: Inode, bytes: seq<byte>, data: seq<int>, l: nat) {
    && Grew(d0, d, multiset{n} + Index(ino.indirect) + multiset(data))
    && InodeOk(ino) && (ino.indirect == 0 <==> |data| <= 12)
    && Listed(d.image, ino, data)
    && (forall i | 0 <= i < |data| :: Piece(d.image, data[i], bytes, i))
    && l == Remaining(|bytes|, |data|) && |data| <= Chunks(|bytes|)
  }

  /** Different summands of what was taken are different blocks. */
  lemma OneRole(d: Disk, d2: Disk, m: multiset<int>, a: multiset<int>, b: multiset<int>, x: int)
    requires Grew(d, d2, m) && a + b <= m && x in a
    ensures x !in b
  {
    assert x in m && (a + b)[x] <= 1;
  }

  lemma Rearranged(a: multiset<int>, i: multiset<int>, j: multiset<int>, data: seq<int>, b: int)
    ensures a + i + multiset(data) == a + multiset(data) + i
    ensures a + multiset(data) + i + multiset{b} == a + multiset(data) + multiset{b} + i
    ensures a + multiset(data) + multiset{b} + j == a + j + multiset(data + [b])
  {
  }

  /** One more data block and, if there was none, an indirect block. */
  lemma FileGrew(d0: Disk, d: Disk, d1: Disk, d2: Disk, d3: Disk, n: int, ind: int, ind2: int, data: seq<int>, b: int)
    requires Grew(d0, d, multiset{n} + Index(ind) + multiset(data)) && 0 <= ind
    requires Grew(d, d1, multiset{b}) && Sized(d2) && d2 == d1.(image := d1.image[b := d2.image[b]])
    requires LinkEffect(d2, d3, ind, ind2)
    ensures Grew(d0, d3, multiset{n} + Index(ind2) + multiset(data + [b]))
  {
    assert b in multiset{b};
    assert forall c | 0 <= c < BLOCK_NUM && c != b :: d2.image[c] == d1.image[c];
    hide Grew, LinkEffect, Index;
    Rearranged(multiset{n}, Index(ind), Index(ind2), data, b);
    var m := multiset{n} + multiset(data) + multiset{b};
    GrewThen(d0, d, d1, multiset{n} + multiset(data) + Index(ind), multiset{b});
    GrewWrite(d0, d1, d2, m + Index(ind), b);
    GrewLink(d0, d2, d3, m, ind, ind2);
  }

  /** The blocks of a file that is being copied are different from each other. */
  lemma FileApart(d0: Disk, d: Disk, n: int, ind: int, data: seq<int>, i: nat)
    requires Grew(d0, d, multiset{n} + Index(ind) + multiset(data)) && i < |data|
    ensures 0 <= data[i] < BLOCK_NUM && (ind != 0 ==> data[i] != ind)
    ensures forall j | 0 <= j < |data| && j != i :: data[j] != data[i]
  {
    var m := multiset{n} + Index(ind) + multiset(data);
    assert data[i] in m;
    OneRole(d0, d, m, multiset(data), Index(ind), data[i]);
    forall j | 0 <= j < |data| && j != i
      ensures data[j] != data[i]
    {
      var lo, hi := if i < j then i else j, if i < j then j else i;
      assert data == data[..hi] + data[hi..];
      assert data[lo] in data[..hi] && data[hi] in data[hi..];
      assert multiset(data) == multiset(data[..hi]) + multiset(data[hi..]);
      OneRole(d0, d, m, multiset(data[..hi]), multiset(data[hi..]), data[lo]);
    }
  }

  lemma PieceKept(img: seq<Block>, img2: seq<Block>, b: int, bytes: seq<byte>, i: nat)
    requires Piece(img, b, bytes, i) && 0 <= b < |img| && |img2| == |img| && img2[b] == img[b]
    ensures Piece(img2, b, bytes, i)
  {
  }

  /** The pieces written so far stay, and block b holds the next one. */
  lemma FilePieces(d0: Disk, d: Disk, d2: Disk, d3: Disk, n: int, ind: int, ind2: int, bytes: seq<byte>,
                   data: seq<int>, b: int)
    requires Grew(d0, d3, multiset{n} + Index(ind2) + multiset(data + [b]))
    requires Sized(d) && 0 <= b < BLOCK_NUM && Sized(d2) && d2.image == d.image[b := d2.image[b]]
    requires LinkEffect(d2, d3, ind, ind2)
    requires forall i | 0 <= i < |data| :: Piece(d.image, data[i], bytes, i)
    requires Piece(d2.image, b, bytes, |data|)
    ensures forall i | 0 <= i < |data| + 1 :: Piece(d3.image, (data + [b])[i], bytes, i)
  {
    hide Grew, Index;
    assert (data + [b])[|data|] == b;
    forall i | 0 <= i < |data| + 1
      ensures Piece(d3.image, (data + [b])[i], bytes, i)
    {
      FileApart(d0, d3, n, ind2, data + [b], i);
      if i < |data| {
        PieceKept(d.image, d3.image, data[i], bytes, i);
      } else {
        PieceKept(d2.image, d3.image, b, bytes, i);
      }
    }
  }

  lemma FileStep(d0: Disk, d: Disk, d1: Disk, d2: Disk, d3: Disk, n: int, ino: Inode, r: Inode,
                 bytes: seq<byte>, data: seq<int>, l: nat, b: int)
    requires FileSoFar(d0, d, n, ino, bytes, data, l) && l > 0
    requires Grew(d, d1, multiset{b}) && d1.image == d.image
    requires Sized(d2) && d2 == d1.(image := d1.image[b := d2.image[b]])
    requires Piece(d2.image, b, bytes, |data|)
    requires LinkEffect(d2, d3, ino.indirect, r.indirect)
    requires InodeOk(r) && Listed(d3.image, r, data + [b]) && (r.indirect == 0 <==> |data| + 1 <= 12)
    ensures FileSoFar(d0, d3, n, r, bytes, data + [b], Remaining(|bytes|, |data| + 1))
  {
    hide Piece, Listed, InodeOk, LinkEffect, Index;
    FileGrew(d0, d, d1, d2, d3, n, ino.indirect, r.indirect, data, b);
    assert b in multiset{b};
    FilePieces(d0, d, d2, d3, n, ino.indirect, r.indirect, bytes, data, b);
  }

  /** With nothing left to copy and the inode written, the file is stored. */
  lemma FileDone(d0: Disk, d: Disk, d2: Disk, n: int, ino: Inode, name: Name, bytes: seq<byte>, data: seq<int>,
                 parent: int)
    requires FileSoFar(d0, d, n, ino, bytes, data, 0) && 0 < n < BLOCK_NUM
    requires Sized(d2) && d2 == d.(image := d.image[n := d2.image[n]]) && InodeOf(d2.image[n]) == ino
    requires ino.kind == TYPE_FILE && ino.size == |bytes| && ino.blocks == BlocksField(|bytes|)
             && CString(ino.filename) == name
    ensures var p := FilePlan(n, ino.indirect, data);
            && Stored(d2.image, p, File(name, bytes), parent) && Grew(d0, d2, Roles(p))
            && d2.left == d0.left - Need(File(name, bytes))
  {
    var m := multiset{n} + Index(ino.indirect) + multiset(data);
    GrewWrite(d0, d, d2, m, n);
    forall b | b in Index(ino.indirect) + multiset(data)
      ensures b != n
    {
      OneRole(d0, d, m, Index(ino.indirect) + multiset(data), multiset{n}, b);
    }
    assert |data| == Chunks(|bytes|);
    FileKept(d.image, d2.image, ino, name, bytes, ino.indirect, data);
  }

  lemma FileStart(d0: Disk, d: Disk, n: int, ino: Inode, bytes: seq<byte>)
    requires Grew(d0, d, multiset{n}) && InodeOk(ino) && ino.indirect == 0
    ensures FileSoFar(d0, d, n, ino, bytes, [], |bytes|)
  {
    var none: seq<int> := [];
    assert multiset{n} + Index(0) + multiset(none) == multiset{n};
  }

  lemma LeftBound(d: Disk)
    requires Conserved(d)
    ensures 0 <= d.left <= BLOCK_NUM
  {
    CountBound(d.used);
  }

  /** The state while bytes remain: what is known of the inode, and how many blocks are left. */
  lemma FileLeft(d0: Disk, d: Disk, n: int, ino: Inode, bytes: seq<byte>, data: seq<int>, l: nat)
    requires FileSoFar(d0, d, n, ino, bytes, data, l) && l > 0 && Conserved(d0) && Conserved(d)
    ensures |data| < Chunks(|bytes|) && |bytes| - l == BLOCK_SIZE * |data| && |data| <= BLOCK_NUM
    ensures InodeOk(ino) && Listed(d.image, ino, data) && (ino.indirect == 0 <==> |data| <= 12)
    ensures d.left == d0.left - 1 - Extra(|data|) - |data|
  {
    LeftBound(d0);
    LeftBound(d);
  }

  /** A file with bytes still to copy needs room for one more entry. */
  lemma FileNeed(d0: Disk, d: Disk, n: int, ino: Inode, name: Name, bytes: seq<byte>, data: seq<int>, l: nat)
    requires FileSoFar(d0, d, n, ino, bytes, data, l) && l > 0
    ensures d.left <= (if |data| == 12 then 1 else 0) ==> Need(File(name, bytes)) > d0.left
  {
    assert d.left == d0.left - 1 - Extra(|data|) - |data|;
  }

  /** Writing a piece to a fresh block leaves the entries alone. */
  lemma PieceWritten(d0: Disk, d: Disk, d1: Disk, d2: Disk, n: int, ino: Inode, bytes: seq<byte>, data: seq<int>,
                     l: nat, b: int)
    requires FileSoFar(d0, d, n, ino, bytes, data, l) && l > 0
    requires Grew(d, d1, multiset{b}) && d1.image == d.image
    requires 0 <= b < BLOCK_NUM && Sized(d2) && d2 == d1.(image := d1.image[b := d2.image[b]])
    requires var size := if l > BLOCK_SIZE then BLOCK_SIZE else l;
             d2.image[b][..size] == bytes[|bytes| - l..|bytes| - l + size]
    ensures Listed(d2.image, ino, data) && Piece(d2.image, b, bytes, |data|)
  {
    GrewWrite(d, d1, d2, multiset{b}, b);
    assert ino.indirect != 0 ==> ino.indirect in multiset{n} + Index(ino.indirect) + multiset(data);
    ListedKept(d, d2, multiset{b}, ino, data);
  }

  // ----- filling a directory

  /** The directory at n has the first kids; ino is its inode, not yet written. */
  ghost predicate DirSoFar(d0: Disk, d: Disk, ino: Inode, n: int, parent: int, kids: seq<Tree>, ps: seq<Plan>) {
    && Grew(d0, d, Index(ino.indirect) + RolesAll(ps))
    && InodeOk(ino) && (ino.indirect == 0 <==> |ps| + 2 <= 12)
    && Listed(d.image, ino, DirList(n, parent, ps))
    && |ps| == |kids| && forall i | 0 <= i < |ps| :: Stored(d.image, ps[i], kids[i], n)
  }

  lemma DirStart(d: Disk, ino: Inode, n: int, parent: int)
    requires Sized(d) && InodeOk(ino) && ino.indirect == 0 && ino.direct[0] == n && ino.direct[1] == parent
    ensures DirSoFar(d, d, ino, n, parent, [], [])
  {
  }

  /** The blocks field is set last. */
  lemma DirBlocks(d0: Disk, d: Disk, ino: Inode, n: int, parent: int, kids: seq<Tree>, ps: seq<Plan>, blocks: nat)
    requires DirSoFar(d0, d, ino, n, parent, kids, ps) && blocks < WORD32
    ensures DirSoFar(d0, d, ino.(blocks := blocks), n, parent, kids, ps) && InodeOk(ino.(blocks := blocks))
  {
    hide Stored, Grew;
    var ino2 := ino.(blocks := blocks);
    var list := DirList(n, parent, ps);
    forall i | 0 <= i < |list|
      ensures EntryAt(d.image, ino2, i) == list[i]
    {
      assert EntryAt(d.image, ino, i) == list[i];
    }
  }

  /** How many blocks are left while a directory is being filled. */
  lemma DirLeft(d0: Disk, d: Disk, ino: Inode, n: int, parent: int, kids: seq<Tree>, ps: seq<Plan>)
    requires DirSoFar(d0, d, ino, n, parent, kids, ps)
    ensures d.left == d0.left - NeedInside(kids)
    ensures InodeOk(ino) && (ino.indirect == 0 <==> |kids| + 2 <= 12) && |ps| == |kids|
  {
    StoredSizes(d.image, ps, kids, n, Dir([], kids));
  }

  /** The state before a further kid is packed. */
  lemma DirRoom(d0: Disk, d: Disk, ino: Inode, n: int, parent: int, kids: seq<Tree>, ps: seq<Plan>)
    requires DirSoFar(d0, d, ino, n, parent, kids, ps) && Conserved(d0) && Conserved(d)
    ensures InodeOk(ino) && (ino.indirect == 0 <==> |kids| + 2 <= 12) && |ps| == |kids| <= BLOCK_NUM
  {
    DirLeft(d0, d, ino, n, parent, kids, ps);
    LeftBound(d);
    LeftBound(d0);
    NeedPrefix(kids, 0);
  }

  /** If the next kid does not fit, the directory does not. */
  lemma DirNeed(d0: Disk, d: Disk, ino: Inode, n: int, parent: int, t: Tree, kids: seq<Tree>, ps: seq<Plan>)
    requires DirSoFar(d0, d, ino, n, parent, kids, ps) && t.Dir? && |kids| < |t.kids| && kids == t.kids[..|kids|]
    ensures Need(t.kids[|kids|]) + (if |kids| + 2 == 12 then 1 else 0) > d.left ==>
              NeedInside(t.kids) > d0.left
  {
    hide Need, NeedAll;
    DirLeft(d0, d, ino, n, parent, kids, ps);
    NeedPrefix(t.kids, |kids|);
  }

  /** Taking blocks leaves the entries of an inode alone. */
  lemma ListedKept(d: Disk, d1: Disk, m: multiset<int>, ino: Inode, list: seq<int>)
    requires Grew(d, d1, m) && Listed(d.image, ino, list) && |ino.direct| == 12
    requires |list| > 12 ==> 0 <= ino.indirect < BLOCK_NUM && d.used[ino.indirect]
    ensures Listed(d1.image, ino, list)
  {
    forall i | 0 <= i < |list|
      ensures EntryAt(d1.image, ino, i) == list[i]
    {
      assert EntryAt(d.image, ino, i) == list[i];
    }
  }

  /** Packing a kid leaves the entries of the directory so far alone. */
  lemma DirListed(d0: Disk, d: Disk, d1: Disk, ino: Inode, n: int, parent: int, kids: seq<Tree>, ps: seq<Plan>, p: Plan)
    requires DirSoFar(d0, d, ino, n, parent, kids, ps) && Grew(d, d1, Roles(p))
    ensures Listed(d1.image, ino, DirList(n, parent, ps))
  {
    hide Roles, RolesAll, Stored, Listed;
    assert ino.indirect != 0 ==> ino.indirect in Index(ino.indirect) + RolesAll(ps);
    ListedKept(d, d1, Roles(p), ino, DirList(n, parent, ps));
  }

  /** A block of a kid was taken, and is not the directory's indirect block. */
  lemma KidRole(d0: Disk, d: Disk, ind: int, ps: seq<Plan>, i: nat, b: int)
    requires Grew(d0, d, Index(ind) + RolesAll(ps)) && i < |ps| && b in Roles(ps[i])
    ensures 0 <= b < BLOCK_NUM && d.used[b] && b !in Index(ind)
  {
    hide Roles, RolesAll, Index;
    RolesOfKid(ps, i);
    assert b in RolesAll(ps) && b in Index(ind) + RolesAll(ps);
    OneRole(d0, d, Index(ind) + RolesAll(ps), RolesAll(ps), Index(ind), b);
  }

  /** An earlier kid is still stored after a further one was packed and linked. */
  lemma KidKept(d0: Disk, d: Disk, d1: Disk, d2: Disk, ind: int, ind2: int, ps: seq<Plan>, kid: Tree, n: int, p: Plan,
                i: nat)
    requires Grew(d0, d, Index(ind) + RolesAll(ps)) && i < |ps| && Stored(d.image, ps[i], kid, n)
    requires Grew(d, d1, Roles(p)) && LinkEffect(d1, d2, ind, ind2)
    requires Grew(d0, d2, Index(ind2) + RolesAll(ps + [p]))
    ensures Stored(d2.image, ps[i], kid, n)
  {
    hide Stored, Roles, RolesAll;
    assert (ps + [p])[i] == ps[i];
    forall b | b in Roles(ps[i])
      ensures BlockAt(d2.image, b) == BlockAt(d.image, b)
    {
      KidRole(d0, d, ind, ps, i, b);
      KidRole(d0, d2, ind2, ps + [p], i, b);
    }
    StoredKept(d.image, d2.image, ps[i], kid, n);
  }

  /** The new kid survives the write to the indirect block. */
  lemma NewKidKept(d0: Disk, d1: Disk, d2: Disk, ind: int, ind2: int, ps: seq<Plan>, p: Plan, kid: Tree, n: int)
    requires Stored(d1.image, p, kid, n) && LinkEffect(d1, d2, ind, ind2)
    requires Grew(d0, d2, Index(ind2) + RolesAll(ps + [p]))
    ensures Stored(d2.image, p, kid, n)
  {
    hide Stored, Roles, RolesAll;
    assert (ps + [p])[|ps|] == p;
    forall b | b in Roles(p)
      ensures BlockAt(d2.image, b) == BlockAt(d1.image, b)
    {
      KidRole(d0, d2, ind2, ps + [p], |ps|, b);
    }
    StoredKept(d1.image, d2.image, p, kid, n);
  }

  lemma DirGrew(d0: Disk, d: Disk, d1: Disk, d2: Disk, ind: int, ind2: int, ps: seq<Plan>, p: Plan)
    requires Grew(d0, d, Index(ind) + RolesAll(ps)) && 0 <= ind
    requires Grew(d, d1, Roles(p)) && LinkEffect(d1, d2, ind, ind2)
    ensures Grew(d0, d2, Index(ind2) + RolesAll(ps + [p]))
  {
    hide Grew, LinkEffect, Index, Roles;
    assert (ps + [p])[..|ps|] == ps;
    GrewThen(d0, d, d1, Index(ind) + RolesAll(ps), Roles(p));
    assert Index(ind) + RolesAll(ps) + Roles(p) == RolesAll(ps + [p]) + Index(ind);
    GrewLink(d0, d1, d2, RolesAll(ps + [p]), ind, ind2);
    assert RolesAll(ps + [p]) + Index(ind2) == Index(ind2) + RolesAll(ps + [p]);
  }

  lemma KidsKept(d0: Disk, d: Disk, d1: Disk, d2: Disk, ind: int, ind2: int, ps: seq<Plan>, kids: seq<Tree>, n: int,
                 p: Plan, kid: Tree)
    requires Grew(d0, d, Index(ind) + RolesAll(ps)) && |ps| == |kids|
    requires forall i | 0 <= i < |ps| :: Stored(d.image, ps[i], kids[i], n)
    requires Grew(d, d1, Roles(p)) && Stored(d1.image, p, kid, n) && LinkEffect(d1, d2, ind, ind2)
    requires Grew(d0, d2, Index(ind2) + RolesAll(ps + [p]))
    ensures forall i | 0 <= i < |ps| + 1 :: Stored(d2.image, (ps + [p])[i], (kids + [kid])[i], n)
  {
    hide Stored, Grew, LinkEffect, Index, Roles, RolesAll;
    forall i | 0 <= i < |ps| + 1
      ensures Stored(d2.image, (ps + [p])[i], (kids + [kid])[i], n)
    {
      if i < |ps| {
        KidKept(d0, d, d1, d2, ind, ind2, ps, kids[i], n, p, i);
      } else {
        NewKidKept(d0, d1, d2, ind, ind2, ps, p, kid, n);
      }
    }
  }

  lemma DirStep(d0: Disk, d: Disk, d1: Disk, d2: Disk, ino: Inode, r: Inode, n: int, parent: int,
                kids: seq<Tree>, ps: seq<Plan>, kid: Tree, p: Plan)
    requires DirSoFar(d0, d, ino, n, parent, kids, ps)
    requires Grew(d, d1, Roles(p)) && Stored(d1.image, p, kid, n)
    requires LinkEffect(d1, d2, ino.indirect, r.indirect)
    requires InodeOk(r) && Listed(d2.image, r, DirList(n, parent, ps) + [p.n]) && (r.indirect == 0 <==> |ps| + 3 <= 12)
    ensures DirSoFar(d0, d2, r, n, parent, kids + [kid], ps + [p])
  {
    hide Stored, Grew, LinkEffect, Index, Roles, RolesAll, Listed, InodeOk;
    DirGrew(d0, d, d1, d2, ino.indirect, r.indirect, ps, p);
    KidsKept(d0, d, d1, d2, ino.indirect, r.indirect, ps, kids, n, p, kid);
    assert DirList(n, parent, ps + [p]) == DirList(n, parent, ps) + [p.n];
  }

  lemma StoredDir(img: seq<Block>, p: Plan, t: Tree, parent: int)
    requires p.DirPlan? && t.Dir? && 0 < p.n < |img| && |p.kids| == |t.kids| && InodeOk(InodeOf(img[p.n]))
    requires DirInode(img, InodeOf(img[p.n]), t.name, p.n, parent, p.ind, p.kids)
    requires forall i | 0 <= i < |p.kids| :: Stored(img, p.kids[i], t.kids[i], p.n)
    ensures Stored(img, p, t, parent)
  {
    hide InodeOk, InodeOf, DirInode;
  }

  lemma KidsKeptByWrite(img: seq<Block>, img2: seq<Block>, n: int, ps: seq<Plan>, kids: seq<Tree>)
    requires |img2| == |img| && 0 <= n < |img| && img2 == img[n := img2[n]] && n !in RolesAll(ps)
    requires |ps| == |kids| && forall i | 0 <= i < |ps| :: Stored(img, ps[i], kids[i], n)
    ensures forall i | 0 <= i < |ps| :: Stored(img2, ps[i], kids[i], n)
  {
    hide Stored, Roles;
    forall i | 0 <= i < |ps|
      ensures Stored(img2, ps[i], kids[i], n)
    {
      RolesOfKid(ps, i);
      StoredKept(img, img2, ps[i], kids[i], n);
    }
  }

  /** Writing the directory's own inode touches none of its kids. */
  lemma DirWritten(d: Disk, d2: Disk, n: int, ino: Inode, parent: int, t: Tree, ps: seq<Plan>)
    requires Sized(d) && Sized(d2) && 0 < n < BLOCK_NUM && d2.image == d.image[n := d2.image[n]] && t.Dir?
    requires n !in Index(ino.indirect) + RolesAll(ps)
    requires InodeOk(ino) && InodeOf(d2.image[n]) == ino && (ino.indirect == 0 <==> |ps| + 2 <= 12)
    requires Listed(d.image, ino, DirList(n, parent, ps))
    requires |ps| == |t.kids| && forall i | 0 <= i < |ps| :: Stored(d.image, ps[i], t.kids[i], n)
    requires ino.kind == TYPE_DIR && ino.size == 0 && ino.blocks == |ps| + 2 && CString(ino.filename) == t.name
    ensures Stored(d2.image, DirPlan(n, ino.indirect, ps), t, parent)
  {
    hide Stored, Listed, InodeOf, RolesAll, DirList;
    assert n !in RolesAll(ps) && n !in Index(ino.indirect);
    DirKept(d.image, d2.image, ino, t.name, n, parent, ino.indirect, ps);
    KidsKeptByWrite(d.image, d2.image, n, ps, t.kids);
    StoredDir(d2.image, DirPlan(n, ino.indirect, ps), t, parent);
  }

  /** The directory is complete once its inode is written. */
  lemma DirDone(d0: Disk, da: Disk, d: Disk, d2: Disk, n: int, ino: Inode, parent: int, t: Tree, ps: seq<Plan>)
    requires Grew(d0, da, multiset{n}) && 0 < n < BLOCK_NUM && t.Dir? && DirSoFar(da, d, ino, n, parent, t.kids, ps)
    requires Sized(d2) && d2 == d.(image := d.image[n := d2.image[n]]) && InodeOf(d2.image[n]) == ino
    requires ino.kind == TYPE_DIR && ino.size == 0 && ino.blocks == |ps| + 2 && CString(ino.filename) == t.name
    ensures var p := DirPlan(n, ino.indirect, ps); Stored(d2.image, p, t, parent) && Grew(d0, d2, Roles(p))
  {
    var m := Index(ino.indirect) + RolesAll(ps);
    var p := DirPlan(n, ino.indirect, ps);
    assert multiset{n} + m == Roles(p);
    hide Stored, Listed, InodeOf, InodeOk, Index;
    GrewThen(d0, da, d, multiset{n}, m);
    GrewWrite(d0, d, d2, Roles(p), n);
    if n in m {
      OneRole(d0, d, Roles(p), m, multiset{n}, n);
    }
    DirWritten(d, d2, n, ino, parent, t, ps);
  }

  /** After the first three blocks, every further one has one role. */
  lemma RootRoles(d0: Disk, d: Disk, p: Plan, m: multiset<int>)
    requires Grew(d0, d, m) && Roles(p) == multiset{2} + m && d0.left == BLOCK_NUM - 3
    requires forall b | 0 <= b < BLOCK_NUM :: d0.used[b] <==> b <= 2
    ensures forall b | b in m :: 3 <= b < BLOCK_NUM
    ensures forall b | b in AllRoles(p) :: 0 <= b < BLOCK_NUM && AllRoles(p)[b] == 1
    ensures forall b | 0 <= b < BLOCK_NUM :: d.used[b] <==> b in AllRoles(p)
    ensures d.left == BLOCK_NUM - |AllRoles(p)|
  {
    assert AllRoles(p) == multiset{0, 1, 2} + m;
  }

  /** Writing the root's own inode, the superblock and the freemap touches nothing below the root. */
  lemma RootWritten(img: seq<Block>, img2: seq<Block>, ino: Inode, t: Tree, ps: seq<Plan>)
    requires |img| == |img2| == BLOCK_NUM && t.Dir? && (forall b | 3 <= b < BLOCK_NUM :: img2[b] == img[b])
    requires forall b | b in Index(ino.indirect) + RolesAll(ps) :: 3 <= b < BLOCK_NUM
    requires InodeOk(ino) && InodeOf(img2[2]) == ino && (ino.indirect == 0 <==> |ps| + 2 <= 12)
    requires Listed(img, ino, DirList(2, 2, ps))
    requires |ps| == |t.kids| && forall i | 0 <= i < |ps| :: Stored(img, ps[i], t.kids[i], 2)
    requires ino.kind == TYPE_DIR && ino.size == 0 && ino.blocks == |ps| + 2 && CString(ino.filename) == t.name
    ensures Stored(img2, DirPlan(2, ino.indirect, ps), t, 2)
  {
    hide Stored, Listed, InodeOf, RolesAll, Roles, DirList;
    assert forall b | b in Index(ino.indirect) :: b in Index(ino.indirect) + RolesAll(ps);
    DirKept(img, img2, ino, t.name, 2, 2, ino.indirect, ps);
    forall i | 0 <= i < |ps|
      ensures Stored(img2, ps[i], t.kids[i], 2)
    {
      RolesOfKid(ps, i);
      assert forall b | b in Roles(ps[i]) :: b in Index(ino.indirect) + RolesAll(ps);
      StoredKept(img, img2, ps[i], t.kids[i], 2);
    }
    StoredDir(img2, DirPlan(2, ino.indirect, ps), t, 2);
  }

  /** The image is complete once superblock, freemap and root inode are written. */
  lemma RootDone(d0: Disk, d: Disk, d2: Disk, ino: Inode, t: Tree, ps: seq<Plan>)
    requires Conserved(d) && t.Dir? && DirSoFar(d0, d, ino, 2, 2, t.kids, ps)
    requires forall b | 0 <= b < BLOCK_NUM :: d0.used[b] <==> b <= 2
    requires d0.left == BLOCK_NUM - 3
    requires ino.kind == TYPE_DIR && ino.size == 0 && ino.blocks == |ps| + 2 && CString(ino.filename) == t.name
    requires Sized(d2) && d2.used == d.used && d2.left == d.left && InodeOf(d2.image[2]) == ino
    requires forall b | 3 <= b < BLOCK_NUM :: d2.image[b] == d.image[b]
    requires forall b | 0 <= b < BLOCK_NUM :: Taken(d2.image[1], b) <==> d2.used[b]
    requires var s := SuperOf(d2.image[0]);
             s.magic == MAGIC_NUM && s.blocks == BLOCK_NUM && s.freemapBlocks == FREEMAP_NUM && s.unusedBlocks == d.left
    ensures Packed(d2.image, DirPlan(2, ino.indirect, ps), t)
  {
    var p := DirPlan(2, ino.indirect, ps);
    hide Stored, Listed, InodeOf, RolesAll, DirList, SuperOf, Taken, Grew;
    assert Roles(p) == multiset{2} + (Index(ino.indirect) + RolesAll(ps));
    RootRoles(d0, d, p, Index(ino.indirect) + RolesAll(ps));
    RootWritten(d.image, d2.image, ino, t, ps);
  }
}
