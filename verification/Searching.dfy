/** Model of search_file and of sys_getcwd with its two helpers (src/fs/fs.c). */
module Searching {
  import opened Results
  import opened Bitmaps
  import opened Blocks
  import opened Files
  import opened DirTables
  import opened Directories
  import opened Paths
  import opened Trees
  import opened TreePaths
  import opened Volumes
  import opened FileSystem

  const MAX_PATH: nat := 512

  // ---------------------------------------------------------------------------------------
  // What a search finds.

  /** item: what was found. parent: the directory in which the last component was looked up.
      seen: how many components were looked up. */
  datatype Search = Search(item: Option<Item>, parent: nat, seen: nat)

  function SearchIn(t: Tree, d: nat, names: seq<Name>): (r: Search)
    requires names != []
    ensures 1 <= r.seen <= |names|
    decreases |names|
  {
    if d !in t.dirs || names[0] !in t.dirs[d] then Search(None, d, 1)
    else
      var item := t.dirs[d][names[0]];
      if item.kind == FT_DIRECTORY && |names| > 1 then
        var r := SearchIn(t, item.ino, names[1..]);
        r.(seen := r.seen + 1)
      else Search(Some(item), d, 1)
  }

  /** A search answers what the path resolves to, and says where it ended. */
  lemma {:induction false} SearchFacts(t: Tree, d: nat, names: seq<Name>)
    requires TreeInv(t) && d in t.dirs && d < 0x1_0000_0000 && names != []
    ensures var r := SearchIn(t, d, names); var n := names[r.seen - 1];
            && r.item == Resolve(t, d, names)
            && r.parent in t.dirs && r.parent < 0x1_0000_0000
            && Resolve(t, d, names[..r.seen - 1]) == Some(Item(r.parent, FT_DIRECTORY))
            && (r.item.None? ==> n !in t.dirs[r.parent])
            && (r.item.Some? ==> n in t.dirs[r.parent] && t.dirs[r.parent][n] == r.item.value)
            && (r.item.Some? && r.item.value.kind == FT_DIRECTORY ==> r.seen == |names| && r.item.value.ino in t.dirs)
    decreases |names|
  {
    hide Once, AllListed, Depths, Names, AllFit, Dots;
    if names[0] in t.dirs[d] {
      var item := t.dirs[d][names[0]];
      if item.kind == FT_DIRECTORY {
        EnterIn(t, d, names[0]);
        if |names| > 1 {
          SearchFacts(t, item.ino, names[1..]);
          var k := SearchIn(t, item.ino, names[1..]).seen;
          assert names[..k][1..] == names[1..][..k - 1];
          assert names[1..][k - 1] == names[k];
        } else {
          assert Resolve(t, item.ino, names[1..]) == Some(item);
        }
      }
    }
  }

  lemma EnterIn(t: Tree, d: nat, n: Name)
    requires TreeInv(t) && d in t.dirs && n in t.dirs[d] && t.dirs[d][n].kind == FT_DIRECTORY
    ensures t.dirs[d][n].ino in t.dirs
  {
    EnterStep(t, d, n);
  }

  /** Paths the system works with: absolute, shorter than 512 bytes, with good components, and not
      made of slashes alone, unless it is the root. */
  ghost predicate PathOk(p: Path) {
    && 1 <= |p| < MAX_PATH && p[0] == SLASH
    && (forall n :: n in Components(p) ==> GoodName(n))
    && (Components(p) == [] ==> p == [SLASH])
  }

  /** Is the path one of the three that search_file knows without looking? */
  predicate IsRootPath(p: Path) {
    p == [SLASH] || p == [SLASH] + DOT || p == [SLASH] + DOTDOT
  }

  lemma RootPaths(p: Path)
    requires IsRootPath(p)
    ensures Components(p) == if p == [SLASH] then [] else if p == [SLASH] + DOT then [DOT] else [DOTDOT]
  {
    if p == [SLASH] {
      assert p[1..] == [];
    } else if p == [SLASH] + DOT {
      ComponentsCons(DOT, []);
      assert [SLASH] + DOT + [] == p;
    } else {
      ComponentsCons(DOTDOT, []);
      assert [SLASH] + DOTDOT + [] == p;
    }
  }

  lemma RootResolves(t: Tree, p: Path)
    requires TreeInv(t) && IsRootPath(p)
    ensures 0 in t.dirs && Resolve(t, 0, Components(p)) == Some(Item(0, FT_DIRECTORY))
  {
    RootPaths(p);
    assert DirDots(t, 0);
    if p != [SLASH] {
      var n := if p == [SLASH] + DOT then DOT else DOTDOT;
      assert Resolve(t, 0, [n]) == Resolve(t, 0, []);
    }
  }

  /** What is left to look up: the component in hand and those behind it. */
  function Left(name: Name, rest: Option<Path>): seq<Name> {
    if name == [] then [] else [name] + if rest.Some? then Components(rest.value) else []
  }

  /** The state of the loop of search_file. */
  ghost predicate Looking(t: Tree, names: seq<Name>, cur: nat, parent: nat, seen: nat, left: seq<Name>) {
    && cur in t.dirs && parent in t.dirs && seen + |left| == |names| && left == names[seen..] && names != []
    && (left != [] ==> var r := SearchIn(t, cur, left); SearchIn(t, 0, names) == r.(seen := r.seen + seen))
    && (left == [] ==>
       seen > 0 && cur < 0x1_0000_0000 && SearchIn(t, 0, names) == Search(Some(Item(cur, FT_DIRECTORY)), parent, seen))
  }

  lemma LookStart(t: Tree, names: seq<Name>)
    requires TreeInv(t) && names != []
    ensures Looking(t, names, 0, 0, 0, names)
  {
    hide AllFit, Once, AllListed, Depths, Names;
    assert names[0..] == names;
  }

  /** Entering a directory. */
  lemma LookOn(t: Tree, names: seq<Name>, cur: nat, parent: nat, seen: nat, left: seq<Name>)
    requires TreeInv(t) && Looking(t, names, cur, parent, seen, left) && left != [] && left[0] in t.dirs[cur]
    requires t.dirs[cur][left[0]].kind == FT_DIRECTORY
    ensures Looking(t, names, t.dirs[cur][left[0]].ino, cur, seen + 1, left[1..])
  {
    hide TreeInv;
    EnterIn(t, cur, left[0]);
  }

  lemma NextName(p: Path, name: Name, rest: Option<Path>)
    requires name == UpToSlash(SkipSlashes(p))
    requires rest == if |name| == |SkipSlashes(p)| then None else Some(SkipSlashes(p)[|name|..])
    ensures Left(name, rest) == Components(p)
  {
    ComponentsByParse(p);
    if rest.None? && name != [] {
      assert SkipSlashes(p)[|name|..] == [];
    }
  }

  /** search_file. */
  method SearchFile(vol: Volume, path: Path) returns (r: Search)
    requires vol.Valid() && PathOk(path)
    ensures r.item == Resolve(Shape(vol.Now()), 0, Components(path))
    ensures r.item.None? || !IsRootPath(path) ==>
            Components(path) != [] && r == SearchIn(Shape(vol.Now()), 0, Components(path))
    ensures IsRootPath(path) ==> r.item == Some(Item(0, FT_DIRECTORY))
  {
    hide Good, PathOk, TreeInv, Shape, Looking, Components, Resolve, SearchIn, InodeBits, OwnInv, DirOk, DirMap, Sizes,
         SkipSlashes, UpToSlash, Bitmap.Contents, Bitmap.Valid;
    ghost var v := vol.Now();
    ghost var t := Shape(v);
    TreeOfVol(v);
    if IsRootPath(path) {
      RootResolves(t, path);
      return Search(Some(Item(0, FT_DIRECTORY)), 0, 0);
    }
    ghost var names := Components(path);
    SomeName(path);
    var cur: nat, parent: nat, seen := 0, 0, 0;
    var name, rest := PathParse(path);
    NextName(path, name, rest);
    LookStart(t, names);
    while name != []
      invariant Looking(t, names, cur, parent, seen, Left(name, rest))
      decreases |Left(name, rest)|
    {
      DirInVol(v, t, names, cur, parent, seen, Left(name, rest));
      LeftGood(path, names, Left(name, rest), t, cur, parent, seen);
      var e := SearchDirEntry(vol.part, cur, name);
      if e.None? {
        LookMissed(t, names, cur, parent, seen, Left(name, rest));
        return Search(None, cur, seen + 1);
      }
      if Type(e.value) != FT_DIRECTORY {
        LookHit(t, names, cur, parent, seen, Left(name, rest));
        return Search(Some(Item(Ino(e.value), Type(e.value))), cur, seen + 1);
      }
      LookOn(t, names, cur, parent, seen, Left(name, rest));
      ghost var behind := Left(name, rest)[1..];
      parent, cur, seen := cur, Ino(e.value), seen + 1;
      if rest.Some? {
        var p := rest.value;
        name, rest := PathParse(p);
        NextName(p, name, rest);
      } else {
        name := [];
      }
      assert Left(name, rest) == behind;
    }
    LookEnd(t, names, cur, parent, seen);
    return Search(Some(Item(cur, FT_DIRECTORY)), parent, seen);
  }

  lemma TreeOfVol(v: Vol)
    requires Good(v)
    ensures Sizes(v.fs) && TreeInv(Shape(v))
  {
    hide OwnInv, RootDir, ShapesOk, TreeInv;
    VolFacts(v.fs, v.dirs, v.depth);
  }

  lemma SomeName(path: Path)
    requires PathOk(path) && !IsRootPath(path)
    ensures Components(path) != []
  {
  }

  lemma DirInVol(v: Vol, t: Tree, names: seq<Name>, cur: nat, parent: nat, seen: nat, left: seq<Name>)
    requires Good(v) && Sizes(v.fs) && t == Shape(v) && Looking(t, names, cur, parent, seen, left)
    ensures OwnInv(v.fs) && cur in v.fs.inodes && DirOk(v.fs, cur) && cur in t.dirs && t.dirs[cur] == DirMap(v.fs, cur)
  {
    hide OwnInv, RootDir, TreeInv, DirOk, DirMap, ShapesOk, SearchIn;
    VolFacts(v.fs, v.dirs, v.depth);
    DirOfVol(v, cur);
  }

  lemma LeftGood(path: Path, names: seq<Name>, left: seq<Name>, t: Tree, cur: nat, parent: nat, seen: nat)
    requires PathOk(path) && names == Components(path) && Looking(t, names, cur, parent, seen, left) && left != []
    ensures GoodName(left[0])
  {
    hide Components, SearchIn, GoodName;
    assert left[0] == names[seen];
  }

  lemma LookMissed(t: Tree, names: seq<Name>, cur: nat, parent: nat, seen: nat, left: seq<Name>)
    requires TreeInv(t) && Looking(t, names, cur, parent, seen, left) && left != [] && left[0] !in t.dirs[cur]
    ensures SearchIn(t, 0, names) == Search(None, cur, seen + 1) && Resolve(t, 0, names).None?
  {
    hide TreeInv, Resolve;
    RootThereIn(t);
    SearchFacts(t, 0, names);
  }

  lemma LookHit(t: Tree, names: seq<Name>, cur: nat, parent: nat, seen: nat, left: seq<Name>)
    requires TreeInv(t) && Looking(t, names, cur, parent, seen, left) && left != [] && left[0] in t.dirs[cur]
    requires t.dirs[cur][left[0]].kind != FT_DIRECTORY
    ensures SearchIn(t, 0, names) == Search(Some(t.dirs[cur][left[0]]), cur, seen + 1)
    ensures Resolve(t, 0, names) == Some(t.dirs[cur][left[0]])
  {
    hide TreeInv, Resolve;
    RootThereIn(t);
    SearchFacts(t, 0, names);
  }

  lemma LookEnd(t: Tree, names: seq<Name>, cur: nat, parent: nat, seen: nat)
    requires TreeInv(t) && Looking(t, names, cur, parent, seen, [])
    ensures cur < 0x1_0000_0000 && SearchIn(t, 0, names) == Search(Some(Item(cur, FT_DIRECTORY)), parent, seen)
    ensures Resolve(t, 0, names) == Some(Item(cur, FT_DIRECTORY))
  {
    hide TreeInv, Resolve;
    RootThereIn(t);
    SearchFacts(t, 0, names);
  }

  lemma RootThereIn(t: Tree)
    requires TreeInv(t)
    ensures 0 in t.dirs
  {
  }

  // ---------------------------------------------------------------------------------------
  // sys_getcwd.

  lemma ParentFacts(v: Vol, c: nat)
    requires Good(v) && c in v.dirs && c != 0
    ensures Sizes(v.fs) && OwnInv(v.fs) && TreeInv(Shape(v)) && c in Shape(v).dirs && DOTDOT in Shape(v).dirs[c]
    ensures c in v.fs.inodes && DirOk(v.fs, c)
    ensures var u := Up(Shape(v), c); u in v.dirs && u in v.fs.inodes && DirOk(v.fs, u) && u in Shape(v).dirs
    ensures Lists(Shape(v), Up(Shape(v), c), NameIn(Shape(v), c), c)
  {
    hide OwnInv, RootDir, ShapesOk, TreeInv, DirMap, DirOk;
    VolFacts(v.fs, v.dirs, v.depth);
    TreeDir(v.fs, v.dirs, v.depth, c);
    UpDown(Shape(v), c);
    TreeDir(v.fs, v.dirs, v.depth, Up(Shape(v), c));
  }
}
