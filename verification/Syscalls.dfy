/** Model of sys_mkdir, sys_open for creating, sys_unlink and sys_rmdir (src/fs/fs.c) on path names. */
module Syscalls {
  import opened Results
  import opened Bytes
  import opened Bitmaps
  import opened Blocks
  import opened Files
  import opened DirTables
  import opened Directories
  import opened Paths
  import opened Trees
  import opened TreePaths
  import opened Volumes
  import opened FileSystem
  import opened Searching

  /** path_depth_cnt. */
  method PathDepth(path: Path) returns (depth: nat)
    ensures depth == |Components(path)|
  {
    hide Components, SkipSlashes, UpToSlash;
    depth := 0;
    var name, rest := PathParse(path);
    NextName(path, name, rest);
    while name != []
      invariant depth + |Left(name, rest)| == |Components(path)|
      decreases |Left(name, rest)|
    {
      depth := depth + 1;
      ghost var behind := Left(name, rest)[1..];
      if rest.Some? {
        var p := rest.value;
        name, rest := PathParse(p);
        NextName(p, name, rest);
      } else {
        name := [];
      }
      assert Left(name, rest) == behind;
    }
  }

  // ---------------------------------------------------------------------------------------
  // What a path says.

  /** All but the last component lead to directory d, and d has no entry with the last. */
  ghost predicate Missing(t: Tree, names: seq<Name>, d: int) {
    && names != [] && 0 <= d < 0x1_0000_0000 && Resolve(t, 0, names[..|names| - 1]) == Some(Item(d, FT_DIRECTORY))
    && d in t.dirs && Last(names) !in t.dirs[d]
  }

  function Last(names: seq<Name>): Name
    requires names != []
  {
    names[|names| - 1]
  }

  /** A search that looked at every component and found nothing. */
  lemma MissingIs(t: Tree, names: seq<Name>)
    requires TreeInv(t) && names != []
    ensures 0 in t.dirs
    ensures var r := SearchIn(t, 0, names);
            && (r.item.None? && r.seen == |names| ==> Missing(t, names, r.parent) && Plain(Last(names)))
            && ((exists d :: Missing(t, names, d)) ==> r.item.None? && r.seen == |names|)
  {
    hide AllFit, Once, AllListed, Depths, Names, Dots, Resolve, SearchIn;
    RootThereIn(t);
    SearchFacts(t, 0, names);
    var r := SearchIn(t, 0, names);
    DotsInDir(t, r.parent);
    if d :| Missing(t, names, d) {
      MissingSeen(t, 0, names, d);
    }
  }

  lemma DotsInDir(t: Tree, d: nat)
    requires TreeInv(t) && d in t.dirs
    ensures DOT in t.dirs[d] && DOTDOT in t.dirs[d]
  {
    hide AllFit, Once, AllListed, Depths, Names;
    assert DirDots(t, d);
  }

  lemma {:induction false} MissingSeen(t: Tree, e: nat, names: seq<Name>, d: Word)
    requires e < 0x1_0000_0000 && names != [] && Resolve(t, e, names[..|names| - 1]) == Some(Item(d, FT_DIRECTORY))
    requires d in t.dirs && Last(names) !in t.dirs[d]
    ensures SearchIn(t, e, names).item.None? && SearchIn(t, e, names).seen == |names|
    decreases |names|
  {
    if |names| > 1 {
      var init := names[..|names| - 1];
      assert init[0] == names[0] && init[1..] == names[1..][..|names| - 2];
      MissingSeen(t, t.dirs[e][names[0]].ino, names[1..], d);
    } else {
      assert names[..0] == [];
    }
  }

  // ---------------------------------------------------------------------------------------
  // sys_mkdir and sys_open with O_CREAT.

  /** What both do before they create: search, and check that only the last component is missing. */
  method WhereToCreate(vol: Volume, path: Path) returns (r: Option<(nat, Name)>)
    requires vol.Valid() && PathOk(path)
    ensures TreeInv(Shape(vol.Now()))
    ensures r.Some? ==>
              var (d, n) := r.value; var names := Components(path);
              && d in vol.dirs && d in Shape(vol.Now()).dirs && n !in Shape(vol.Now()).dirs[d]
              && names != [] && n == Last(names) && GoodName(n) && Plain(n) && Missing(Shape(vol.Now()), names, d)
    ensures r.None? ==> forall d :: !Missing(Shape(vol.Now()), Components(path), d)
  {
    hide Good, Shape, TreeInv, Components, Resolve, SearchIn, GoodName, Plain, Missing, InodeBits, Sizes, OwnInv, DirOk,
         Bitmap.Contents, Bitmap.Valid;
    ghost var v := vol.Now();
    ghost var t := Shape(v);
    TreeOfVol(v);
    var found := SearchFile(vol, path);
    ghost var names := Components(path);
    FoundOrMissing(t, path, found);
    if found.item.Some? {
      return None;
    }
    var depth := PathDepth(path);
    if depth != found.seen {
      return None;
    }
    var name := LastName(path);
    GoodLast(path);
    DirInTree(v, found.parent);
    return Some((found.parent, name));
  }

  lemma DirInTree(v: Vol, d: nat)
    requires Good(v) && Sizes(v.fs) && d in Shape(v).dirs
    ensures d in v.dirs
  {
    hide OwnInv, RootDir, ShapesOk, TreeInv, DirMap;
  }

  lemma FoundOrMissing(t: Tree, path: Path, r: Search)
    requires TreeInv(t) && r.item == Resolve(t, 0, Components(path))
    requires r.item.None? || !IsRootPath(path) ==> Components(path) != [] && r == SearchIn(t, 0, Components(path))
    requires IsRootPath(path) ==> r.item == Some(Item(0, FT_DIRECTORY))
    ensures var names := Components(path);
            && (r.item.Some? ==> forall d :: !Missing(t, names, d))
            && (r.item.None? ==> names != [] && (r.seen != |names| ==> forall d :: !Missing(t, names, d)))
            && (r.item.None? && r.seen == |names| ==>
                  && Missing(t, names, r.parent) && r.parent in t.dirs && Plain(Last(names))
                  && Last(names) !in t.dirs[r.parent])
  {
    hide TreeInv, Resolve, SearchIn, Components, Plain;
    var names := Components(path);
    if names != [] {
      MissingIs(t, names);
      RootThereIn(t);
      SearchFacts(t, 0, names);
    }
  }

  lemma GoodLast(path: Path)
    requires PathOk(path) && Components(path) != []
    ensures GoodName(Last(Components(path)))
  {
    hide Components, GoodName;
    var names := Components(path);
    assert Last(names) in names;
  }

  /** The last component: what strrchr finds in the searched path. */
  method LastName(path: Path) returns (n: Name)
    requires Components(path) != []
    ensures n == Last(Components(path))
  {
    hide Components, SkipSlashes, UpToSlash, Left;
    var name, rest := PathParse(path);
    NextName(path, name, rest);
    n := name;
    NoneLeft(name, rest);
    while name != []
      invariant EndsIn(Left(name, rest), n, Last(Components(path)))
      invariant name == [] ==> Left(name, rest) == []
      decreases |Left(name, rest)|
    {
      NextLeft(name, rest, n, Last(Components(path)));
      n := name;
      if rest.Some? {
        var p := rest.value;
        name, rest := PathParse(p);
        NextName(p, name, rest);
      } else {
        name := [];
      }
      NoneLeft(name, rest);
    }
  }

  /** The last of what is left is last, or n is, when nothing is left. */
  predicate EndsIn(left: seq<Name>, n: Name, last: Name) {
    if left == [] then n == last else Last(left) == last
  }

  lemma NextLeft(name: Name, rest: Option<Path>, n: Name, last: Name)
    requires name != [] && EndsIn(Left(name, rest), n, last)
    ensures var more := if rest.Some? then Components(rest.value) else [];
            EndsIn(more, name, last) && |more| < |Left(name, rest)|
  {
    hide Components;
  }

  lemma NoneLeft(name: Name, rest: Option<Path>)
    ensures name == [] ==> Left(name, rest) == []
  {
  }

  /** sys_mkdir. -1 when the path exists or when a directory on the way does not; otherwise one more directory.
      spills: the parent is full. Then the volume stays good iff the answer is -1 as well. */
  method SysMkdir(vol: Volume, path: Path) returns (r: Outcome<bool>, spills: bool)
    requires vol.Valid() && PathOk(path) && LowFree(vol.part.inodes.Keys)
    modifies vol, vol.part, vol.part.disk, vol.part.blockBitmap.bits, vol.inodeBitmap.bits
    ensures r.AssertFailed? ==> spills
    ensures Halting(r, old(vol.Now()).fs, 2, IntoFull(old(vol.Now()), Components(path)))
    ensures r.Done? ==> (spills <==> IntoFull(old(vol.Now()), Components(path)))
    ensures r.Done? ==> vol.Wired() && (vol.Valid() <==> !spills || !r.value)
    ensures r == Done(true) && !spills ==>
              exists d, c :: Missing(Shape(old(vol.Now())), Components(path), d)
                             && MadeDir(old(vol.Now()), vol.Now(), d, Last(Components(path)), c)
    ensures r == Done(false) ==>
              && Unseen(old(vol.Now()), vol.Now())
              && (spills || forall d :: !Missing(Shape(old(vol.Now())), Components(path), d))
  {
    hide ClearBits, Good, Shape, TreeInv, Components, Missing, PathOk, GoodName, Plain, MadeDir, Unseen, InodeBits,
         LowFree, IntoFull, Sizes, OwnInv, DirOk, Entries, Bitmap.Contents, Bitmap.Valid;
    ghost var v := vol.Now();
    SizesOfVol(v);
    TreeOfVol(v);
    NothingSeen(v);
    var place := WhereToCreate(vol, path);
    if place.None? {
      NoPlace(v, Components(path));
      return Done(false), false;
    }
    var (d, name) := place.value;
    DirOfVol(v, d);
    FullIs(v, Components(path), d);
    var made;
    made, spills := vol.Mkdir(d, name);
    if !made.Done? {
      return made.PropagateFailure(), spills;
    }
    return Done(made.value.Some?), spills;
  }

  /** Nothing but taken places within the twelve blocks. */
  ghost predicate DirFull(v: Vol, d: int) {
    Sizes(v.fs) && 0 <= d && d in v.fs.inodes && FirstDead(Entries(v.fs, d)).None?
  }

  /** The path asks for a new entry in a full directory. */
  ghost predicate IntoFull(v: Vol, names: seq<Name>) {
    Sizes(v.fs) && exists d :: Missing(Shape(v), names, d) && DirFull(v, d)
  }

  lemma FullIs(v: Vol, names: seq<Name>, d: nat)
    requires Sizes(v.fs) && d in v.fs.inodes && Missing(Shape(v), names, d)
    ensures IntoFull(v, names) <==> FirstDead(Entries(v.fs, d)).None?
  {
    hide Shape, Resolve, FirstDead, Entries;
    OneParent(Shape(v), names, d);
    if FirstDead(Entries(v.fs, d)).None? {
      assert Missing(Shape(v), names, d) && DirFull(v, d);
    }
  }

  lemma NoPlace(v: Vol, names: seq<Name>)
    requires Sizes(v.fs) && forall d :: !Missing(Shape(v), names, d)
    ensures !IntoFull(v, names)
  {
    hide Shape, Missing;
  }

  lemma NothingSeen(v: Vol)
    requires Good(v)
    ensures Unseen(v, v)
  {
    hide VolInv, Contents;
    VolFacts(v.fs, v.dirs, v.depth);
  }

  lemma OneParent(t: Tree, names: seq<Name>, d: nat)
    requires Missing(t, names, d)
    ensures forall e :: Missing(t, names, e) ==> e == d
  {
    hide Resolve;
  }

  /** sys_open with O_CREAT. No file under the same conditions, nor without a free slot in the file table;
      otherwise one more file, empty: made is its inode. Without a free descriptor the call answers -1 although
      the file is there. */
  method SysCreate(vol: Volume, path: Path, slotFree: bool, fdFree: bool)
    returns (r: Outcome<bool>, made: Option<Word>, spills: bool)
    requires vol.Valid() && PathOk(path) && LowFree(vol.part.inodes.Keys)
    modifies vol.part, vol.part.disk, vol.part.blockBitmap.bits, vol.inodeBitmap.bits
    ensures r.AssertFailed? ==> spills
    ensures Halting(r, old(vol.Now()).fs, 1, IntoFull(old(vol.Now()), Components(path)))
    ensures r.Done? ==>
            (spills <==> path[|path| - 1] != SLASH && slotFree && IntoFull(old(vol.Now()), Components(path)))
    ensures r.Done? ==> vol.Wired() && (vol.Valid() <==> !spills || made.None?)
    ensures r.Done? ==> (r.value <==> made.Some? && fdFree) && (made.Some? ==> slotFree && path[|path| - 1] != SLASH)
    ensures r.Done? && made.Some? && !spills ==>
              exists d :: Missing(Shape(old(vol.Now())), Components(path), d)
                          && Created(old(vol.Now()), vol.Now(), d, Last(Components(path)), made.value)
    ensures r.Done? && made.None? ==>
              && vol.Now() == old(vol.Now())
              && (path[|path| - 1] == SLASH || !slotFree || spills || forall d ::
                 !Missing(Shape(old(vol.Now())), Components(path), d))
  {
    hide ClearBits, Good, Shape, TreeInv, Components, Missing, GoodName, Plain, Created, InodeBits, LowFree, IntoFull,
         Sizes, OwnInv, DirOk, Entries, Bitmap.Contents, Bitmap.Valid;
    made := None;
    ghost var v := vol.Now();
    SizesOfVol(v);
    if path[|path| - 1] == SLASH {
      return Done(false), None, false;
    }
    TreeOfVol(v);
    var place := WhereToCreate(vol, path);
    if place.None? {
      NoPlace(v, Components(path));
      return Done(false), None, false;
    }
    var (d, name) := place.value;
    DirOfVol(v, d);
    FullIs(v, Components(path), d);
    var created;
    created, spills := vol.Create(d, name, slotFree);
    if !created.Done? {
      return created.PropagateFailure(), None, spills;
    }
    return Done(created.value.Some? && fdFree), created.value, spills;
  }

  // ---------------------------------------------------------------------------------------
  // sys_unlink.

  /** Component k, looked up in directory d, is where the search ends, and it found the item. */
  ghost predicate EndsAt(t: Tree, names: seq<Name>, d: int, k: nat, item: Item) {
    && k < |names| && 0 <= d < 0x1_0000_0000 && Resolve(t, 0, names[..k]) == Some(Item(d, FT_DIRECTORY))
    && d in t.dirs && names[k] in t.dirs[d] && t.dirs[d][names[k]] == item && Resolve(t, 0, names) == Some(item)
  }

  /** The entry at which the search ended is gone, with its file. */
  ghost predicate UnlinkedAt(v: Vol, w: Vol, names: seq<Name>, d: nat, k: nat, item: Item) {
    Good(v) && Sizes(v.fs) && k < |names| && EndsAt(Shape(v), names, d, k, item) && Unlinked(v, w, d, names[k])
  }

  /** The entry of the last component is gone, with its directory. */
  ghost predicate RemovedAt(v: Vol, w: Vol, names: seq<Name>, d: nat, item: Item) {
    && Good(v) && Sizes(v.fs) && names != [] && EndsAt(Shape(v), names, d, |names| - 1, item)
    && RemovedDir(v, w, d, Last(names))
  }

  /** The directory to which the path leads lost its inode, but not its entry. */
  ghost predicate DanglingAt(t: Tree, w: Vol, names: seq<Name>) {
    Resolve(t, 0, names).Some? && Dangling(w, Resolve(t, 0, names).value.ino)
  }

  lemma FoundEnds(t: Tree, path: Path, r: Search)
    requires TreeInv(t) && r.item == Resolve(t, 0, Components(path)) && r.item.Some? && r.item.value.ino != 0
    requires !IsRootPath(path) ==> Components(path) != [] && r == SearchIn(t, 0, Components(path))
    requires IsRootPath(path) ==> r.item == Some(Item(0, FT_DIRECTORY))
    ensures var names := Components(path);
            && 1 <= r.seen <= |names| && r.parent < 0x1_0000_0000
            && EndsAt(t, names, r.parent, r.seen - 1, r.item.value)
            && (r.item.value.kind == FT_REGULAR ==> MayDrop(t, r.parent, names[r.seen - 1]))
            && (r.item.value.kind == FT_DIRECTORY ==> r.seen == |names| && r.item.value.ino in t.dirs)
            && (r.item.value.kind == FT_DIRECTORY || r.item.value.kind == FT_REGULAR)
  {
    hide Dots, AllFit, Once, AllListed, Depths, Names, Resolve, SearchIn, Components;
    var names := Components(path);
    RootThereIn(t);
    SearchFacts(t, 0, names);
    EntryKinds(t, r.parent, names[r.seen - 1]);
  }

  /** Regular files have plain names. */
  lemma EntryKinds(t: Tree, d: nat, n: Name)
    requires TreeInv(t) && d in t.dirs && n in t.dirs[d]
    ensures t.dirs[d][n].kind == FT_DIRECTORY || (t.dirs[d][n].kind == FT_REGULAR && Plain(n))
  {
    hide Once, AllListed, Depths, Names;
    assert DirDots(t, d);
    if Plain(n) {
      assert Fits(t, d, n);
    }
  }

  /** sys_unlink. It halts for the root; -1 when nothing is found, for a directory and for a file in
      use; otherwise the file at which the search ended is gone. */
  method SysUnlink(vol: Volume, path: Path, inUse: bool) returns (r: Outcome<bool>)
    requires vol.Valid() && PathOk(path)
    modifies vol.part, vol.part.disk, vol.part.blockBitmap.bits, vol.inodeBitmap.bits
    ensures vol.Valid() && !r.Exhausted?
    ensures r.AssertFailed? <==> AtRoot(Shape(old(vol.Now())), Components(path))
    ensures r != Done(true) ==> vol.Now() == old(vol.Now())
    ensures r == Done(true) <==> !inUse && AtFile(Shape(old(vol.Now())), Components(path))
    ensures r == Done(true) ==>
              exists d, k, item :: UnlinkedAt(old(vol.Now()), vol.Now(), Components(path), d, k, item)
                                   && (k == |Components(path)| - 1 <==>
                                      InDirectory(Shape(old(vol.Now())), Components(path)))
  {
    hide Good, Shape, TreeInv, Components, Resolve, SearchIn, EndsAt, InDirectory, MayDrop, Unlinked, PathOk, InodeBits,
         Sizes, OwnInv, DirOk, Bitmap.Contents, Bitmap.Valid;
    ghost var v := vol.Now();
    ghost var t := Shape(v);
    TreeOfVol(v);
    var found := SearchFile(vol, path);
    if found.item.None? {
      return Done(false);
    }
    var item := found.item.value;
    if item.ino == 0 {
      RootIsDir(t, Components(path));
      return AssertFailed;
    }
    FoundEnds(t, path, found);
    if item.kind == FT_DIRECTORY {
      return Done(false);
    }
    if inUse {
      return Done(false);
    }
    ghost var n := Components(path)[found.seen - 1];
    EndsFacts(t, Components(path), found.parent, found.seen - 1, item);
    DirInTree(v, found.parent);
    var gone := vol.Unlink(found.parent, item.ino, n);
    if gone.AssertFailed? {
      return AssertFailed;
    }
    LastInDirectory(t, Components(path), found.parent, found.seen - 1, item);
    assert UnlinkedAt(v, vol.Now(), Components(path), found.parent, found.seen - 1, item);
    return Done(true);
  }

  /** All components but the last lead to a directory. */
  ghost predicate InDirectory(t: Tree, names: seq<Name>) {
    && names != [] && Resolve(t, 0, names[..|names| - 1]).Some?
    && Resolve(t, 0, names[..|names| - 1]).value.kind == FT_DIRECTORY
  }

  /** The search for a file ends at the last component iff that is looked up in a directory. If it is not, an
      earlier component is a regular file, and that is what sys_unlink removes. */
  lemma LastInDirectory(t: Tree, names: seq<Name>, d: nat, k: nat, item: Item)
    requires EndsAt(t, names, d, k, item) && item.kind != FT_DIRECTORY
    ensures k == |names| - 1 <==> InDirectory(t, names)
  {
    if k < |names| - 1 {
      var init := names[..|names| - 1];
      assert init[..k] + init[k..] == init && init[..k] == names[..k];
      ResolveOn(t, 0, init[..k], init[k..], d);
      assert init[k..][0] == names[k];
    }
  }

  /** sys_unlink of "/f/...", where f is a regular file in the root: the search ends at f. */
  lemma UnlinkBehindFile(t: Tree, f: Name, rest: Path)
    requires 0 in t.dirs && f in t.dirs[0] && t.dirs[0][f].kind == FT_REGULAR && PathName(f)
    requires rest != [] && rest[0] == SLASH && Components(rest) != []
    ensures var names := Components([SLASH] + f + rest);
            AtFile(t, names) && names != [] && EndsAt(t, names, 0, 0, t.dirs[0][f]) && !InDirectory(t, names)
  {
    hide Components;
    ComponentsCons(f, rest);
    var names := [f] + Components(rest);
    assert names[..0] == [] && names[0] == f;
    LastInDirectory(t, names, 0, 0, t.dirs[0][f]);
  }

  ghost predicate AtRoot(t: Tree, names: seq<Name>) {
    Resolve(t, 0, names).Some? && Resolve(t, 0, names).value.ino == 0
  }

  ghost predicate AtFile(t: Tree, names: seq<Name>) {
    Resolve(t, 0, names).Some? && Resolve(t, 0, names).value.kind == FT_REGULAR
  }

  lemma EndsFacts(t: Tree, names: seq<Name>, d: nat, k: nat, item: Item)
    requires EndsAt(t, names, d, k, item)
    ensures d in t.dirs && names[k] in t.dirs[d] && t.dirs[d][names[k]] == item && Resolve(t, 0, names) == Some(item)
  {
    hide Resolve;
  }

  /** Inode 0 is the root, which is no regular file. */
  lemma RootIsDir(t: Tree, names: seq<Name>)
    requires TreeInv(t) && Resolve(t, 0, names).Some? && Resolve(t, 0, names).value.ino == 0
    ensures Resolve(t, 0, names).value.kind != FT_REGULAR
  {
    hide Dots, AllFit, Once, AllListed, Depths, Names, Resolve, SearchIn;
    if names != [] {
      RootThereIn(t);
      SearchFacts(t, 0, names);
      var r := SearchIn(t, 0, names);
      ZeroIsNoFile(t, r.parent, names[r.seen - 1]);
    } else {
      assert Resolve(t, 0, []) == Some(Item(0, FT_DIRECTORY)) by { NoNames(t); }
    }
  }

  lemma NoNames(t: Tree)
    ensures Resolve(t, 0, []) == Some(Item(0, FT_DIRECTORY))
  {
  }

  lemma ZeroIsNoFile(t: Tree, d: nat, n: Name)
    requires TreeInv(t) && d in t.dirs && n in t.dirs[d] && t.dirs[d][n].ino == 0
    ensures t.dirs[d][n].kind == FT_DIRECTORY
  {
    hide Once, AllListed, Depths, Names;
    assert DirDots(t, d) && DirDots(t, 0);
    if Plain(n) {
      assert Fits(t, d, n);
    }
  }

  // ---------------------------------------------------------------------------------------
  // sys_rmdir.

  ghost predicate AtDir(t: Tree, names: seq<Name>) {
    && Resolve(t, 0, names).Some? && Resolve(t, 0, names).value.kind == FT_DIRECTORY
    && Resolve(t, 0, names).value.ino != 0
  }

  /** The path leads to a directory other than the root in which there are only the dots. */
  ghost predicate AtEmptyDir(t: Tree, names: seq<Name>) {
    && AtDir(t, names) && Resolve(t, 0, names).value.ino in t.dirs
    && t.dirs[Resolve(t, 0, names).value.ino].Keys == {DOT, DOTDOT}
  }

  /** sys_rmdir. It halts for the root; -1 when nothing is found, for a file and for a directory that
      is not empty; otherwise the directory is gone. The tree stays whole exactly when the last
      component is not "."; if it is, the parent is left with an entry for a free inode. */
  method SysRmdir(vol: Volume, path: Path) returns (r: Outcome<bool>)
    requires vol.Valid() && PathOk(path)
    modifies vol, vol.part, vol.part.disk, vol.part.blockBitmap.bits, vol.inodeBitmap.bits
    ensures vol.Wired() && !r.Exhausted?
    ensures r.AssertFailed? <==> AtRoot(Shape(old(vol.Now())), Components(path))
    ensures r == Done(true) <==> AtEmptyDir(Shape(old(vol.Now())), Components(path))
    ensures r != Done(true) ==> vol.Valid() && vol.Now() == old(vol.Now())
    ensures r == Done(true) ==> Components(path) != [] && (vol.Valid() <==> Last(Components(path)) != DOT)
    ensures r == Done(true) && Last(Components(path)) != DOT ==>
              exists d, item :: RemovedAt(old(vol.Now()), vol.Now(), Components(path), d, item)
    ensures r == Done(true) && Last(Components(path)) == DOT ==>
              DanglingAt(Shape(old(vol.Now())), vol.Now(), Components(path))
  {
    hide Good, Shape, TreeInv, Components, Resolve, SearchIn, EndsAt, MayDrop, RemovedDir, PathOk, InodeBits, Sizes,
         OwnInv, DirOk, Dangling, Bitmap.Contents, Bitmap.Valid;
    ghost var v := vol.Now();
    ghost var t := Shape(v);
    TreeOfVol(v);
    var found := SearchFile(vol, path);
    if found.item.None? {
      return Done(false);
    }
    var item := found.item.value;
    if item.ino == 0 {
      return AssertFailed;
    }
    FoundEnds(t, path, found);
    if item.kind == FT_REGULAR {
      return Done(false);
    }
    ghost var n := Components(path)[found.seen - 1];
    EndsFacts(t, Components(path), found.parent, found.seen - 1, item);
    DirInTree(v, found.parent);
    DirInTree(v, item.ino);
    r := RemoveAt(vol, found.parent, item.ino, n);
    assert n == Last(Components(path));
    assert r == Done(true) && n != DOT ==> RemovedAt(v, vol.Now(), Components(path), found.parent, item);
  }

  /** The directory c that the search found as n in d. */
  method RemoveAt(vol: Volume, d: Word, c: Word, ghost n: Name) returns (r: Outcome<bool>)
    requires vol.Valid() && d in vol.dirs && c in vol.dirs && c != 0
    requires TreeInv(Shape(vol.Now())) && d in Shape(vol.Now()).dirs && c in Shape(vol.Now()).dirs
    requires n in Shape(vol.Now()).dirs[d] && Shape(vol.Now()).dirs[d][n] == Item(c, FT_DIRECTORY)
    modifies vol, vol.part, vol.part.disk, vol.part.blockBitmap.bits, vol.inodeBitmap.bits
    ensures vol.Wired() && r.Done?
    ensures r.value <==> old(Shape(vol.Now())).dirs[c].Keys == {DOT, DOTDOT}
    ensures !r.value ==> vol.Valid() && vol.Now() == old(vol.Now())
    ensures r.value ==> (vol.Valid() <==> n != DOT)
    ensures r.value && n != DOT ==> RemovedDir(old(vol.Now()), vol.Now(), d, n)
    ensures r.value && n == DOT ==> Dangling(vol.Now(), c)
  {
    hide Good, Shape, TreeInv, MayDrop, RemovedDir, InodeBits, Sizes, OwnInv, DirOk, Dangling, Bitmap.Contents,
         Bitmap.Valid;
    ghost var t := Shape(vol.Now());
    WhichParent(t, d, c, n);
    r := vol.Rmdir(d, c, n, !Plain(n));
    DanglingIsBad(vol.Now(), c);
  }

  lemma WhichParent(t: Tree, d: nat, c: nat, n: Name)
    requires TreeInv(t) && d in t.dirs && c in t.dirs && c != 0 && n in t.dirs[d] && t.dirs[d][n].ino == c
    ensures n == DOT ==> d == c
    ensures n == DOTDOT ==> t.dirs[c].Keys != {DOT, DOTDOT}
    ensures Plain(n) ==> MayDrop(t, d, n)
  {
    hide AllFit, Once, AllListed, Depths, Names;
    assert DirDots(t, d);
    if n == DOTDOT {
      var m := ParentLists(t, d);
      assert m in t.dirs[c].Keys;
    }
  }
}
