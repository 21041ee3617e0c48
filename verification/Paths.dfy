/**
 What paths mean on a directory tree, that lookup finds exactly that on any
 image the packer makes, and that readall gives back the packed bytes.
 */
module Paths {
  import opened Bytes
  import opened SimpleFs
  import opened FsTree
  import opened Reader

  /** A place in a tree: which kid to take at each level. */
  type Pos = seq<nat>

  datatype Found = Nowhere | At(pos: Pos)

  predicate IsPos(t: Tree, pos: Pos)
    decreases |pos|
  {
    pos == [] || (t.Dir? && pos[0] < |t.kids| && IsPos(t.kids[pos[0]], pos[1..]))
  }

  function Sub(t: Tree, pos: Pos): Tree
    requires IsPos(t, pos)
    decreases |pos|
  {
    if pos == [] then t else Sub(t.kids[pos[0]], pos[1..])
  }

  function Up(pos: Pos): Pos {
    if pos == [] then pos else pos[..|pos| - 1]
  }

  /** The first kid from i on with this name, or NONE. */
  function Child(kids: seq<Tree>, name: Name, i: nat): (r: int)
    ensures r == NONE || i <= r < |kids|
    decreases |kids| - i
  {
    if i >= |kids| then NONE else if kids[i].name == name then i else Child(kids, name, i + 1)
  }

  lemma {:induction false} UpIsPos(t: Tree, pos: Pos)
    requires IsPos(t, pos)
    ensures IsPos(t, Up(pos))
    ensures pos != [] ==> var u := Sub(t, Up(pos));
            u.Dir? && pos[|pos| - 1] < |u.kids| && u.kids[pos[|pos| - 1]] == Sub(t, pos)
    decreases |pos|
  {
    if |pos| > 1 {
      UpIsPos(t.kids[pos[0]], pos[1..]);
      assert Up(pos)[1..] == Up(pos[1..]);
    }
  }

  lemma {:induction false} DownIsPos(t: Tree, pos: Pos, i: nat)
    requires IsPos(t, pos) && Sub(t, pos).Dir? && i < |Sub(t, pos).kids|
    ensures IsPos(t, pos + [i]) && Sub(t, pos + [i]) == Sub(t, pos).kids[i]
    decreases |pos|
  {
    if pos != [] {
      DownIsPos(t.kids[pos[0]], pos[1..], i);
      assert (pos + [i])[1..] == pos[1..] + [i];
    }
  }

  // ----- lookup on the tree

  /** What lookup does with a path string, slash by slash, on the tree itself. */
  function TreeLookup(t: Tree, pos: Pos, path: seq<byte>): (r: Found)
    requires IsPos(t, pos)
    ensures r.At? ==> IsPos(t, r.pos)
    decreases |path|
  {
    var absolute := path != [] && path[0] == SLASH;
    var from := if absolute then [] else pos;
    var path := if absolute then path[1..] else path;
    if path == [] then At(from)
    else if Sub(t, from).File? then Nowhere
    else
      var target := Component(path);
      if target == [DOT] then TreeLookup(t, from, Rest(path))
      else if target == [DOT, DOT] then
        UpIsPos(t, from);
        TreeLookup(t, Up(from), Rest(path))
      else
        var i := Child(Sub(t, from).kids, target, 0);
        if i == NONE then Nowhere
        else
          DownIsPos(t, from, i);
          TreeLookup(t, from + [i], Rest(path))
  }

  // ----- the standard meaning of a path

  /** A component: not empty, and without a slash. */
  predicate IsComponent(c: Name) { c != [] && SLASH !in c }

  /** One component: itself, the parent (the root is its own), or a kid. */
  function Step(t: Tree, pos: Pos, c: Name): (r: Found)
    requires IsPos(t, pos)
    ensures r.At? ==> IsPos(t, r.pos)
  {
    if Sub(t, pos).File? then Nowhere
    else if c == [DOT] then At(pos)
    else if c == [DOT, DOT] then
      UpIsPos(t, pos);
      At(Up(pos))
    else
      var i := Child(Sub(t, pos).kids, c, 0);
      if i == NONE then Nowhere
      else
        DownIsPos(t, pos, i);
        At(pos + [i])
  }

  /** All components one after another; nowhere as soon as one fails. */
  function Resolve(t: Tree, pos: Pos, cs: seq<Name>): (r: Found)
    requires IsPos(t, pos)
    ensures r.At? ==> IsPos(t, r.pos)
    decreases |cs|
  {
    if cs == [] then At(pos)
    else
      var next := Step(t, pos, cs[0]);
      if next.Nowhere? then Nowhere else Resolve(t, next.pos, cs[1..])
  }

  /** c1/c2/.../cn */
  function Join(cs: seq<Name>): seq<byte> {
    if cs == [] then [] else if |cs| == 1 then cs[0] else cs[0] + [SLASH] + Join(cs[1..])
  }

  lemma {:induction false} ComponentOf(c: Name, rest: seq<byte>)
    requires SLASH !in c && (rest == [] || rest[0] == SLASH)
    ensures Component(c + rest) == c
  {
    if c != [] {
      ComponentOf(c[1..], rest);
      assert (c + rest)[1..] == c[1..] + rest;
    }
  }

  lemma FirstOf(c: Name, tail: seq<byte>)
    requires IsComponent(c) && (tail == [] || tail[0] == SLASH)
    ensures (c + tail)[0] != SLASH && Component(c + tail) == c
    ensures Rest(c + tail) == if tail == [] then [] else tail[1..]
  {
    assert c[0] in c;
    ComponentOf(c, tail);
  }

  /** lookup takes the first component of a path for one step. */
  lemma FirstStep(t: Tree, pos: Pos, c: Name, tail: seq<byte>)
    requires IsPos(t, pos) && IsComponent(c) && (tail == [] || tail[0] == SLASH)
    ensures var next := Step(t, pos, c);
            TreeLookup(t, pos, c + tail) ==
            if next.Nowhere? then Nowhere else TreeLookup(t, next.pos, if tail == [] then [] else tail[1..])
  {
    FirstOf(c, tail);
    hide Component, Rest, IsComponent;
  }

  /**
   A path without empty components resolves one component after another; tail is what follows it, if
   anything a slash.
   */
  lemma {:induction false} CleanPath(t: Tree, pos: Pos, cs: seq<Name>, tail: seq<byte>)
    requires IsPos(t, pos) && cs != [] && forall k | 0 <= k < |cs| :: IsComponent(cs[k])
    requires tail == [] || tail[0] == SLASH
    ensures var r := Resolve(t, pos, cs);
            TreeLookup(t, pos, Join(cs) + tail) ==
            if r.Nowhere? then Nowhere else TreeLookup(t, r.pos, if tail == [] then [] else tail[1..])
    decreases |cs|
  {
    hide TreeLookup, Step, IsPos, IsComponent;
    if |cs| == 1 {
      FirstStep(t, pos, cs[0], tail);
      assert cs[1..] == [];
    } else {
      var tail2 := [SLASH] + (Join(cs[1..]) + tail);
      assert Join(cs) + tail == cs[0] + tail2;
      FirstStep(t, pos, cs[0], tail2);
      assert tail2[1..] == Join(cs[1..]) + tail;
      var next := Step(t, pos, cs[0]);
      if next.At? {
        CleanPath(t, next.pos, cs[1..], tail);
      }
    }
  }

  /** Relative and absolute paths of one or more components, with or without a slash at the end. */
  lemma StandardPath(t: Tree, pos: Pos, cs: seq<Name>, tail: seq<byte>)
    requires IsPos(t, pos) && cs != [] && forall k | 0 <= k < |cs| :: IsComponent(cs[k])
    requires tail == [] || tail == [SLASH]
    ensures TreeLookup(t, pos, Join(cs) + tail) == Resolve(t, pos, cs)
    ensures TreeLookup(t, pos, [SLASH] + (Join(cs) + tail)) == Resolve(t, [], cs)
  {
    CleanPath(t, pos, cs, tail);
    CleanPath(t, [], cs, tail);
    AbsoluteStart(t, pos, cs, tail);
  }

  lemma AbsoluteStart(t: Tree, pos: Pos, cs: seq<Name>, tail: seq<byte>)
    requires IsPos(t, pos) && cs != [] && forall k | 0 <= k < |cs| :: IsComponent(cs[k])
    ensures TreeLookup(t, pos, [SLASH] + (Join(cs) + tail)) == TreeLookup(t, [], Join(cs) + tail)
  {
    var path := Join(cs) + tail;
    assert ([SLASH] + path)[1..] == path;
    assert cs[0] != [] && path[0] == cs[0][0];
    assert cs[0][0] in cs[0];
  }

  lemma RestartAtRoot(t: Tree, pos: Pos, cs: seq<Name>, rest: seq<byte>)
    requires IsPos(t, pos)
    ensures var r := Resolve(t, pos, cs);
            r.At? ==> TreeLookup(t, r.pos, [SLASH] + rest) == TreeLookup(t, [], [SLASH] + rest)
  {
  }

  /** An inner double slash starts again at the root, once what comes before it was found. */
  lemma DoubleSlash(t: Tree, pos: Pos, cs: seq<Name>, rest: seq<byte>)
    requires IsPos(t, pos) && cs != [] && forall k | 0 <= k < |cs| :: IsComponent(cs[k])
    ensures TreeLookup(t, pos, Join(cs) + ([SLASH, SLASH] + rest)) ==
            if Resolve(t, pos, cs).Nowhere? then Nowhere else TreeLookup(t, [], [SLASH] + rest)
  {
    hide TreeLookup, IsPos, IsComponent, Join, Resolve;
    CleanPath(t, pos, cs, [SLASH, SLASH] + rest);
    RestartAtRoot(t, pos, cs, rest);
    assert ([SLASH, SLASH] + rest)[1..] == [SLASH] + rest;
  }

  /** Names as a host directory has them, all different in one directory. */
  ghost predicate Named(t: Tree) {
    t.Dir? ==>
      && (forall i | 0 <= i < |t.kids| ::
            IsComponent(t.kids[i].name) && t.kids[i].name != [DOT] && t.kids[i].name != [DOT, DOT])
      && (forall i, j | 0 <= i < j < |t.kids| :: t.kids[i].name != t.kids[j].name)
      && forall i | 0 <= i < |t.kids| :: Named(t.kids[i])
  }

  /** A path that starts with two slashes leads nowhere. */
  lemma LeadingDoubleSlash(t: Tree, pos: Pos, rest: seq<byte>)
    requires IsPos(t, pos) && t.Dir? && Named(t)
    ensures TreeLookup(t, pos, [SLASH, SLASH] + rest) == Nowhere
  {
    assert ([SLASH, SLASH] + rest)[1..] == [SLASH] + rest;
    NoChild(t.kids, [], 0);
  }

  lemma {:induction false} NoChild(kids: seq<Tree>, name: Name, i: nat)
    requires forall k | i <= k < |kids| :: kids[k].name != name
    ensures Child(kids, name, i) == NONE
    decreases |kids| - i
  {
    if i < |kids| {
      NoChild(kids, name, i + 1);
    }
  }

  /** For a file b in a directory a of the root, a/b leads to it; a//b looks for b in the root. */
  lemma TwoComponents(t: Tree, a: Name, b: Name)
    requires IsComponent(a) && IsComponent(b)
    ensures TreeLookup(t, [], a + [SLASH] + b) == Resolve(t, [], [a, b])
    ensures TreeLookup(t, [], a + [SLASH, SLASH] + b)
            == if Step(t, [], a).Nowhere? then Nowhere else Resolve(t, [], [b])
  {
    hide TreeLookup, IsComponent;
    StandardPath(t, [], [a, b], []);
    assert Join([a, b]) + [] == a + [SLASH] + b by {
      assert [a, b][1..] == [b];
    }
    StandardPath(t, [], [b], []);
    DoubleSlash(t, [], [a], b);
    assert Join([a]) + ([SLASH, SLASH] + b) == a + [SLASH, SLASH] + b;
    assert [SLASH] + (Join([b]) + []) == [SLASH] + b;
  }

  /** The root with one directory a, holding one file b. */
  function OneFile(): Tree { Dir([SLASH], [OneDir()]) }

  function OneDir(): Tree { Dir([97], [File([98], [])]) }

  lemma OneFileNamed()
    ensures Named(OneFile()) && IsComponent([97]) && IsComponent([98])
  {
    assert Named(OneDir().kids[0]) && Named(OneDir());
  }

  lemma OneFileSteps()
    ensures Resolve(OneFile(), [], [[97], [98]]) == At([0, 0]) && Resolve(OneFile(), [], [[98]]) == Nowhere
    ensures Step(OneFile(), [], [97]).At?
  {
    var cs: seq<Name> := [[97], [98]];
    assert cs[1..] == [[98]];
    assert Step(OneFile(), [], [97]) == At([0]) && Step(OneFile(), [0], [98]) == At([0, 0]);
  }

  /** So a//b is not a/b: there are trees on which the two differ. */
  lemma DoubleSlashDiffers()
    ensures exists t: Tree, a: Name, b: Name ::
      && Named(t) && IsComponent(a) && IsComponent(b)
      && TreeLookup(t, [], a + [SLASH] + b) != TreeLookup(t, [], a + [SLASH, SLASH] + b)
  {
    hide TreeLookup, Named, Step, Resolve, OneFile, IsComponent;
    OneFileNamed();
    OneFileSteps();
    TwoComponents(OneFile(), [97], [98]);
  }

  // ----- the image

  function PlanAt(p: Plan, pos: Pos): Plan
    decreases |pos|
  {
    if pos == [] || p.FilePlan? || pos[0] >= |p.kids| then p else PlanAt(p.kids[pos[0]], pos[1..])
  }

  /** What lookup returns for what was found. */
  function Node(p: Plan, f: Found): int {
    if f.Nowhere? then NONE else PlanAt(p, f.pos).n
  }

  lemma {:induction false} StoredAt(img: seq<Block>, p: Plan, t: Tree, parent: int, pos: Pos)
    requires Stored(img, p, t, parent) && IsPos(t, pos)
    ensures Stored(img, PlanAt(p, pos), Sub(t, pos), if pos == [] then parent else PlanAt(p, Up(pos)).n)
    decreases |pos|
  {
    if pos != [] {
      StoredAt(img, p.kids[pos[0]], t.kids[pos[0]], p.n, pos[1..]);
      if |pos| > 1 {
        assert Up(pos)[1..] == Up(pos[1..]);
      }
    }
  }

  lemma {:induction false} PlanOfKid(img: seq<Block>, p: Plan, t: Tree, parent: int, pos: Pos, i: nat)
    requires Stored(img, p, t, parent) && IsPos(t, pos) && Sub(t, pos).Dir? && i < |Sub(t, pos).kids|
    ensures PlanAt(p, pos).DirPlan? && i < |PlanAt(p, pos).kids| && PlanAt(p, pos + [i]) == PlanAt(p, pos).kids[i]
    decreases |pos|
  {
    if pos != [] {
      PlanOfKid(img, p.kids[pos[0]], t.kids[pos[0]], p.n, pos[1..], i);
      assert (pos + [i])[1..] == pos[1..] + [i];
    }
  }

  lemma {:induction false} SubNeed(t: Tree, pos: Pos)
    requires IsPos(t, pos)
    ensures Need(Sub(t, pos)) <= Need(t)
    decreases |pos|
  {
    if pos != [] {
      SubNeed(t.kids[pos[0]], pos[1..]);
      NeedPrefix(t.kids, pos[0]);
    }
  }

  /** The search through the entries of a directory finds the first kid of that name. */
  lemma {:induction false} MatchIsChild(img: seq<Block>, p: Plan, t: Tree, parent: int, name: Name, i: nat)
    requires Stored(img, p, t, parent) && t.Dir? && i <= |t.kids| < 0x4000_0000
    ensures Match(img, InodeAt(img, p.n), name, i + 2) ==
            var k := Child(t.kids, name, i); if k == NONE then NONE else p.kids[k].n
    decreases |t.kids| - i
  {
    var ino := InodeAt(img, p.n);
    if i < |t.kids| {
      MatchIsChild(img, p, t, parent, name, i + 1);
      var list := DirList(p.n, parent, p.kids);
      assert EntryAt(img, ino, i + 2) == list[i + 2] == p.kids[i].n;
      assert Stored(img, p.kids[i], t.kids[i], p.n);
    }
  }

  /** The image holds the tree t with p's inode as root, and the numbers of entries stay in the range of an int. */
  ghost predicate Rooted(img: seq<Block>, p: Plan, t: Tree) {
    Stored(img, p, t, p.n) && Need(t) <= BLOCK_NUM
  }

  lemma PackedIsRooted(img: seq<Block>, p: Plan, t: Tree)
    requires Packed(img, p, t)
    ensures Rooted(img, p, t)
  {
    StoredSize(img, p, t, p.n);
  }

  lemma StoredInode(img: seq<Block>, p: Plan, t: Tree, parent: int, name: Name)
    requires Stored(img, p, t, parent) && Need(t) <= BLOCK_NUM
    ensures var ino := InodeAt(img, p.n);
            && p.n > 0
            && (ino.kind == TYPE_DIR <==> t.Dir?)
            && (t.Dir? ==>
                  && p.DirPlan? && |p.kids| == |t.kids| && EntryAt(img, ino, 1) == parent
                  && var k := Child(t.kids, name, 0);
                     Match(img, ino, name, 2) == if k == NONE then NONE else p.kids[k].n)
  {
    if t.Dir? {
      NeedPrefix(t.kids, 0);
      MatchIsChild(img, p, t, parent, name, 0);
      var list := DirList(p.n, parent, p.kids);
      assert EntryAt(img, InodeAt(img, p.n), 1) == list[1];
    }
  }

  /** The inode that a place of a packed tree has: its kind, its parent entry and its search. */
  lemma InodeFacts(img: seq<Block>, p: Plan, t: Tree, pos: Pos, name: Name)
    requires Rooted(img, p, t) && IsPos(t, pos)
    ensures var ino := InodeAt(img, PlanAt(p, pos).n);
            && PlanAt(p, pos).n > 0
            && (ino.kind == TYPE_DIR <==> Sub(t, pos).Dir?)
            && (Sub(t, pos).Dir? ==>
                  && EntryAt(img, ino, 1) == PlanAt(p, Up(pos)).n
                  && var k := Child(Sub(t, pos).kids, name, 0);
                     Match(img, ino, name, 2) == if k == NONE then NONE else PlanAt(p, pos + [k]).n)
  {
    var q, u := PlanAt(p, pos), Sub(t, pos);
    var parent := if pos == [] then p.n else PlanAt(p, Up(pos)).n;
    StoredAt(img, p, t, p.n, pos);
    assert PlanAt(p, []) == p;
    SubNeed(t, pos);
    hide Stored, IsPos, Sub, PlanAt, Match, EntryAt, InodeAt, Child;
    StoredInode(img, q, u, parent, name);
    var k := if u.Dir? then Child(u.kids, name, 0) else NONE;
    if k != NONE {
      PlanOfKid(img, p, t, p.n, pos, k);
    }
  }

  /** lookup on a packed image is lookup on the packed tree, for every path string from every place. */
  lemma {:induction false} LookupRefines(img: seq<Block>, p: Plan, t: Tree, pos: Pos, path: seq<byte>)
    requires Rooted(img, p, t) && IsPos(t, pos)
    ensures Lookup(img, p.n, Node(p, At(pos)), path) == Node(p, TreeLookup(t, pos, path))
    decreases |path|
  {
    var absolute := path != [] && path[0] == SLASH;
    var from := if absolute then [] else pos;
    var rel := if absolute then path[1..] else path;
    InodeFacts(img, p, t, from, Component(rel));
    InodeFacts(img, p, t, pos, []);
    assert IsPos(t, from) && PlanAt(p, []) == p;
    hide Rooted, IsPos, Sub, PlanAt, Component, Rest, Match, EntryAt, InodeAt, Child;
    if rel != [] && Sub(t, from).Dir? {
      var target := Component(rel);
      if target == [DOT] {
        LookupRefines(img, p, t, from, Rest(rel));
      } else if target == [DOT, DOT] {
        UpIsPos(t, from);
        LookupRefines(img, p, t, Up(from), Rest(rel));
      } else {
        var k := Child(Sub(t, from).kids, target, 0);
        if k != NONE {
          DownIsPos(t, from, k);
          InodeFacts(img, p, t, from + [k], []);
          LookupRefines(img, p, t, from + [k], Rest(rel));
        }
      }
    }
  }

  /** A null inode stands for the root. */
  lemma LookupFromNull(img: seq<Block>, p: Plan, t: Tree, path: seq<byte>)
    requires Rooted(img, p, t)
    ensures Lookup(img, p.n, NONE, path) == Node(p, TreeLookup(t, [], path))
  {
    LookupRefines(img, p, t, [], path);
  }

  // ----- the round trip

  /** The names on the way to a place. */
  function NamesTo(t: Tree, pos: Pos): (cs: seq<Name>)
    requires IsPos(t, pos)
    ensures |cs| == |pos|
    decreases |pos|
  {
    if pos == [] then [] else [t.kids[pos[0]].name] + NamesTo(t.kids[pos[0]], pos[1..])
  }

  lemma {:induction false} ChildIsUnique(kids: seq<Tree>, k: nat, i: nat)
    requires i <= k < |kids| && forall a, b | 0 <= a < b < |kids| :: kids[a].name != kids[b].name
    ensures Child(kids, kids[k].name, i) == k
    decreases |kids| - i
  {
    if i < k {
      ChildIsUnique(kids, k, i + 1);
    }
  }

  /** From a place pos, the names to a place below it lead there. */
  lemma {:induction false} NamesResolve(t: Tree, pos: Pos, below: Pos)
    requires IsPos(t, pos) && Named(Sub(t, pos)) && IsPos(Sub(t, pos), below)
    ensures Resolve(t, pos, NamesTo(Sub(t, pos), below)) == At(pos + below)
    ensures forall k | 0 <= k < |below| :: IsComponent(NamesTo(Sub(t, pos), below)[k])
    decreases |below|
  {
    if below == [] {
      assert pos + below == pos;
    } else {
      var u, i := Sub(t, pos), below[0];
      ChildIsUnique(u.kids, i, 0);
      DownIsPos(t, pos, i);
      NamesResolve(t, pos + [i], below[1..]);
      assert pos + [i] + below[1..] == pos + below;
      assert NamesTo(u, below)[1..] == NamesTo(u.kids[i], below[1..]);
    }
  }

  /** The absolute path of a place. */
  function PathTo(t: Tree, pos: Pos): seq<byte>
    requires IsPos(t, pos)
  {
    [SLASH] + Join(NamesTo(t, pos))
  }

  lemma PathLeads(t: Tree, pos: Pos)
    requires IsPos(t, pos) && Named(t)
    ensures TreeLookup(t, [], PathTo(t, pos)) == At(pos)
  {
    NamesResolve(t, [], pos);
    assert [] + pos == pos;
    var cs := NamesTo(t, pos);
    if cs == [] {
      assert PathTo(t, pos)[1..] == [];
    } else {
      StandardPath(t, [], cs, []);
      assert Join(cs) + [] == Join(cs);
    }
  }

  /** The number of bytes in the first k blocks of a file of len bytes. */
  function Done(len: nat, k: nat): (d: nat)
    ensures d <= len
  {
    if BLOCK_SIZE * k <= len then BLOCK_SIZE * k else len
  }

  /** The next piece, and what is left after it. */
  lemma NextPiece(img: seq<Block>, b: int, bytes: seq<byte>, k: nat)
    requires Piece(img, b, bytes, k)
    ensures var d := Done(|bytes|, k);
            var size := if |bytes| - d >= BLOCK_SIZE then BLOCK_SIZE else |bytes| - d;
            && Done(|bytes|, k + 1) == d + size
            && bytes[d..] == BlockAt(img, b)[..size] + bytes[d + size..]
  {
    var d := Done(|bytes|, k);
    var size := if |bytes| - d >= BLOCK_SIZE then BLOCK_SIZE else |bytes| - d;
    assert bytes[d..] == bytes[d..d + size] + bytes[d + size..];
  }

  /** The blocks of a stored file, one after another, are its bytes. */
  lemma {:induction false} GatherIsBytes(img: seq<Block>, ino: Inode, bytes: seq<byte>, data: seq<int>, k: nat)
    requires Listed(img, ino, data) && |data| == Chunks(|bytes|) && k <= |data|
    requires forall i | 0 <= i < |data| :: Piece(img, data[i], bytes, i)
    ensures Gather(img, ino, k, |data|, |bytes| - Done(|bytes|, k)) == bytes[Done(|bytes|, k)..]
    decreases |data| - k
  {
    if k < |data| {
      assert EntryAt(img, ino, k) == data[k];
      NextPiece(img, data[k], bytes, k);
      GatherIsBytes(img, ino, bytes, data, k + 1);
    } else {
      assert Done(|bytes|, k) == |bytes|;
    }
  }

  /** readall gives back the bytes of a stored file. */
  lemma ContentsOfFile(img: seq<Block>, p: Plan, t: Tree, parent: int)
    requires Stored(img, p, t, parent) && t.File? && Need(t) <= BLOCK_NUM
    ensures Contents(img, p.n) == t.bytes
  {
    var ino := InodeAt(img, p.n);
    BlocksFieldIff(|t.bytes|);
    if t.bytes != [] {
      GatherIsBytes(img, ino, t.bytes, p.data, 0);
      assert Int32(ino.blocks) == |p.data|;
    }
  }

  /** The number of blocks in a file's inode lies within what an inode can name, exactly if the file is not empty. */
  lemma ReadableIff(img: seq<Block>, p: Plan, t: Tree, parent: int)
    requires Stored(img, p, t, parent) && t.File? && Need(t) <= BLOCK_NUM
    ensures Int32(InodeAt(img, p.n).blocks) <= 12 + 1024 <==> t.bytes != []
  {
    BlocksFieldIff(|t.bytes|);
  }

  /** Every file of a packed tree is found under its absolute path, and read back byte by byte. */
  lemma RoundTrip(img: seq<Block>, p: Plan, t: Tree, pos: Pos)
    requires Packed(img, p, t) && Named(t) && IsPos(t, pos)
    ensures var n := Lookup(img, SuperOf(img[0]).freemapBlocks + 1, NONE, PathTo(t, pos));
            && n != NONE
            && (InodeAt(img, n).kind == TYPE_FILE <==> Sub(t, pos).File?)
            && (Sub(t, pos).File? ==>
                  InodeAt(img, n).size == |Sub(t, pos).bytes| && Contents(img, n) == Sub(t, pos).bytes)
  {
    var n := PlanAt(p, pos).n;
    var parent := if pos == [] then p.n else PlanAt(p, Up(pos)).n;
    PackedIsRooted(img, p, t);
    PathLeads(t, pos);
    LookupFromNull(img, p, t, PathTo(t, pos));
    StoredAt(img, p, t, p.n, pos);
    SubNeed(t, pos);
    hide Packed, Named, PathTo, Lookup, Contents, IsPos, Sub, PlanAt;
    if Sub(t, pos).File? {
      ContentsOfFile(img, PlanAt(p, pos), Sub(t, pos), parent);
    }
  }
}
