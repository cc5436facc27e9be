/** Model of sys_getcwd and its two helpers (src/fs/fs.c), and the round trip with search_file. */
module Cwd {
  import opened Results
  import opened Bytes
  import opened Bitmaps
  import opened Blocks
  import opened Files
  import opened DirTables
  import opened Directories
  import opened Paths
  import opened Trees
  import opened TreePaths
  import opened Volumes
  import opened FileSystem
  import opened Searching

  // ---------------------------------------------------------------------------------------
  // get_parent_dir_inode_nr.

  /** The second entry of the first block names the parent. */
  lemma SecondEntry(v: Vol, c: nat)
    requires Good(v) && c in v.dirs && c != 0 && Sizes(v.fs) && c in v.fs.inodes && c in Shape(v).dirs
             && DOTDOT in Shape(v).dirs[c]
    ensures |v.fs.inodes[c].sectors| == 13
    ensures var lba := v.fs.inodes[c].sectors[0];
            && v.fs.start <= lba < |v.fs.disk|
            && Ino(RecAt(v.fs.disk[lba], 1)) == Up(Shape(v), c) && Type(RecAt(v.fs.disk[lba], 1)) == FT_DIRECTORY
  {
    hide OwnInv, RootDir, ShapesOk, DirOk, Sizes, AllFit, Once, AllListed, Depths, Names, Entries, TableOk, Listing,
         Live, NameOf, RecAt;
    VolFacts(v.fs, v.dirs, v.depth);
    TreeDir(v.fs, v.dirs, v.depth, c);
    DirFacts(v.fs, c);
    SectorOnDisk(v.fs, c, 0);
    StartPositive(v.fs);
    DotPlaces(v.fs, c);
    ListingAt(Entries(v.fs, c), c, 1);
    assert DirDots(Shape(v), c);
  }

  lemma DotPlaces(fs: Fs, d: nat)
    requires Sizes(fs) && DirOk(fs, d) && 0 < fs.inodes[d].sectors[0] < |fs.disk|
    ensures var t := Entries(fs, d);
            && |t| == PLACES && TableOk(t, d) && Live(t[1]) && NameOf(t[1]) == DOTDOT && NameOf(t[0]) == DOT
            && RecAt(fs.disk[fs.inodes[d].sectors[0]], 1) == t[1]
  {
    hide RecAt, Live, NameOf, NameIs, Ino;
    EntryInBlock(fs.disk, fs.inodes[d].sectors, 0, 1);
    DotsNamed(Entries(fs, d), d);
  }

  method GetParent(vol: Volume, child: nat) returns (r: Outcome<Word>)
    requires vol.Valid() && child in vol.dirs && child != 0
    ensures child in Shape(vol.Now()).dirs && DOTDOT in Shape(vol.Now()).dirs[child]
    ensures r == Done(Up(Shape(vol.Now()), child))
  {
    hide Good, OwnInv, DirOk, Shape, TreeInv, InodeBits, Sizes, RecAt, Ino, Type, Bitmap.Contents, Bitmap.Valid;
    ghost var v := vol.Now();
    ParentFacts(v, child);
    SecondEntry(v, child);
    NumberInRange(vol.inodeBitmap.Contents(), vol.part.inodes.Keys, Up(Shape(v), child));
    var blockLba := vol.part.inodes[child].sectors[0];
    if blockLba < vol.part.start {
      return AssertFailed;
    }
    var buf := vol.part.IdeRead(blockLba);
    assert buf == v.fs.disk[blockLba];
    var e := RecAt(buf, 1);
    if !(Ino(e) < INODES && Type(e) == FT_DIRECTORY) {
      return AssertFailed;
    }
    return Done(Ino(e));
  }

  // ---------------------------------------------------------------------------------------
  // get_child_dir_name.

  /** No entry before place n, live or not, holds the inode number. */
  ghost predicate NoIno(fs: Fs, d: nat, c: Word, n: nat)
    requires Sizes(fs) && d in fs.inodes && n <= PLACES
  {
    forall p :: 0 <= p < n ==> Ino(Entries(fs, d)[p]) != c
  }

  /** The first entry of a sector that holds the inode number. */
  method FindIno(buf: Sector, c: Word) returns (r: Option<nat>)
    ensures r.Some? ==> r.value < PER_BLOCK && Ino(RecAt(buf, r.value)) == c
    ensures r.None? ==> forall k :: 0 <= k < PER_BLOCK ==> Ino(RecAt(buf, k)) != c
  {
    hide Ino;
    var deIdx := 0;
    while deIdx < PER_BLOCK
      invariant 0 <= deIdx <= PER_BLOCK
      invariant forall k :: 0 <= k < deIdx ==> Ino(RecAt(buf, k)) != c
    {
      if Ino(RecAt(buf, deIdx)) == c {
        return Some(deIdx);
      }
      deIdx := deIdx + 1;
    }
    return None;
  }

  lemma NoInoHere(fs: Fs, d: nat, b: nat, c: Word)
    requires Sizes(fs) && DirOk(fs, d) && b < BLOCKS && NoIno(fs, d, c, PER_BLOCK * b)
    requires fs.inodes[d].sectors[b] < |fs.disk|
    requires if fs.inodes[d].sectors[b] == 0 then c != 0
             else forall k :: 0 <= k < PER_BLOCK ==> Ino(RecAt(fs.disk[fs.inodes[d].sectors[b]], k)) != c
    ensures NoIno(fs, d, c, PER_BLOCK * (b + 1))
  {
    hide Ino, RecAt, TableOk, LiveCount;
    forall p | PER_BLOCK * b <= p < PER_BLOCK * (b + 1) ensures Ino(Entries(fs, d)[p]) != c {
      if fs.inodes[d].sectors[b] == 0 {
        DeadBlock(fs, d, b, p);
        ZeroIsDead();
      } else {
        EntryInBlock(fs.disk, fs.inodes[d].sectors, b, p - PER_BLOCK * b);
      }
    }
  }

  /** Whatever entry of the parent holds the number of the child is the child's entry: deleted
      places hold 0, and the dots name directories that are not the child. */
  lemma TheChild(v: Vol, c: Word, p: nat)
    requires Good(v) && c in v.dirs && c != 0 && p < PLACES && Sizes(v.fs) && c in Shape(v).dirs
             && DOTDOT in Shape(v).dirs[c]
    requires var u := Up(Shape(v), c); u in v.fs.inodes && DirOk(v.fs, u) && Ino(Entries(v.fs, u)[p]) == c
    ensures TreeInv(Shape(v)) && NameOf(Entries(v.fs, Up(Shape(v), c))[p]) == NameIn(Shape(v), c)
  {
    hide OwnInv, RootDir, ShapesOk, DirOk, Sizes, TreeInv, Entries, TableOk, Listing, Live, NameOf, NameIs, Ino,
         GoodName, LiveCount;
    ParentFacts(v, c);
    var u := Up(Shape(v), c);
    var t := Entries(v.fs, u);
    DirFacts(v.fs, u);
    IsLiveEntry(t, u, p, c);
    ListingAt(t, u, p);
    TreeDir(v.fs, v.dirs, v.depth, u);
    NotADot(v, c, p);
    DotsNamed(t, u);
    CountedFrom2(t, u, p);
    CountedPlain(t[p]);
    OneNameIn(Shape(v), c, NameOf(t[p]));
  }

  lemma OneNameIn(t: Tree, c: nat, n: Name)
    requires TreeInv(t) && c in t.dirs && c != 0 && DOTDOT in t.dirs[c] && Lists(t, Up(t, c), n, c)
    ensures n == NameIn(t, c)
  {
    hide Dots, AllFit, AllListed, Depths, Names;
  }

  lemma IsLiveEntry(t: Table, d: Word, p: nat, c: Word)
    requires TableOk(t, d) && p < PLACES && Ino(t[p]) == c && c != 0
    ensures Live(t[p])
  {
    hide Live, NameOf, NameIs, GoodName, Ino, ZeroRec;
    ZeroIsDead();
  }

  /** The dots of a directory do not name its child. */
  lemma NotADot(v: Vol, c: Word, p: nat)
    requires Good(v) && c in v.dirs && c != 0 && p < PLACES && Sizes(v.fs) && c in Shape(v).dirs
             && DOTDOT in Shape(v).dirs[c]
    requires var u := Up(Shape(v), c);
             u in v.fs.inodes && DirOk(v.fs, u) && |Entries(v.fs, u)| == PLACES && Ino(Entries(v.fs, u)[p]) == c
    ensures p >= 2
  {
    hide OwnInv, RootDir, ShapesOk, Sizes, TreeInv, Entries, Listing, Live, NameOf, NameIs, Ino, Type, GoodName,
         LiveCount, DirOk, TableOk;
    ParentFacts(v, c);
    var u := Up(Shape(v), c);
    DirFacts(v.fs, u);
    TreeDir(v.fs, v.dirs, v.depth, u);
    DotEntries(Entries(v.fs, u), u);
    NoCycle(Shape(v), c);
  }

  lemma DotEntries(t: Table, d: Word)
    requires TableOk(t, d)
    ensures DOT in Listing(t) && Listing(t)[DOT].ino == Ino(t[0]) && DOTDOT in Listing(t)
            && Listing(t)[DOTDOT].ino == Ino(t[1])
  {
    hide Listing, NameOf, NameIs, Ino, Type;
    DotsNamed(t, d);
    ListingAt(t, d, 0);
    ListingAt(t, d, 1);
  }

  /** Neither "." nor ".." of the parent leads back down. */
  lemma NoCycle(t: Tree, c: nat)
    requires TreeInv(t) && c in t.dirs && c != 0 && DOTDOT in t.dirs[c] && Up(t, c) in t.dirs
    ensures DirDots(t, Up(t, c)) && t.dirs[Up(t, c)][DOT].ino != c && Up(t, Up(t, c)) != c
  {
    hide AllFit, Once, AllListed, Names;
    var u := Up(t, c);
    assert DirDots(t, c) && DepthOk(t, c) && DirDots(t, u) && DepthOk(t, u);
  }

  /** get_child_dir_name: it appends the name of the child, which it always finds. */
  method GetChildName(vol: Volume, parent: Word, child: Word, path: Path) returns (r: Option<Path>)
    requires vol.Valid() && child in vol.dirs && child != 0 && child in Shape(vol.Now()).dirs
    requires DOTDOT in Shape(vol.Now()).dirs[child] && parent == Up(Shape(vol.Now()), child)
    ensures TreeInv(Shape(vol.Now()))
    ensures r == Some(path + [SLASH] + NameIn(Shape(vol.Now()), child))
  {
    hide Good, OwnInv, DirOk, Shape, TreeInv, InodeBits, Sizes, RecAt, Ino, NameOf, NoIno, Bitmap.Contents,
         Bitmap.Valid;
    ghost var v := vol.Now();
    ParentFacts(v, child);
    NoneYet(v.fs, parent, child);
    var blockIdx := 0;
    while blockIdx < BLOCKS
      invariant 0 <= blockIdx <= BLOCKS && NoIno(v.fs, parent, child, PER_BLOCK * blockIdx)
    {
      DirFacts(v.fs, parent);
      if vol.part.inodes[parent].sectors[blockIdx] != 0 {
        SectorOnDisk(v.fs, parent, blockIdx);
        var buf := vol.part.IdeRead(vol.part.inodes[parent].sectors[blockIdx]);
        assert buf == v.fs.disk[v.fs.inodes[parent].sectors[blockIdx]];
        var found := FindIno(buf, child);
        if found.Some? {
          HereIs(v, parent, blockIdx, found.value, child);
          return Some(path + [SLASH] + NameOf(RecAt(buf, found.value)));
        }
      }
      OnDiskOrNone(v.fs, parent, blockIdx);
      NoInoHere(v.fs, parent, blockIdx, child);
      blockIdx := blockIdx + 1;
    }
    ChildIsThere(v, child);
    return None;
  }

  lemma NoneYet(fs: Fs, d: nat, c: Word)
    requires Sizes(fs) && d in fs.inodes
    ensures NoIno(fs, d, c, 0)
  {
  }

  lemma OnDiskOrNone(fs: Fs, d: nat, b: nat)
    requires OwnInv(fs) && Sizes(fs) && d in fs.inodes && b < BLOCKS
    ensures |fs.inodes[d].sectors| == 13 && fs.inodes[d].sectors[b] < |fs.disk|
  {
    hide Exclusive, BitsMatch;
    if fs.inodes[d].sectors[b] != 0 {
      SectorOnDisk(fs, d, b);
    }
  }

  lemma HereIs(v: Vol, u: Word, b: nat, k: nat, c: Word)
    requires Good(v) && Sizes(v.fs) && c in v.dirs && c != 0 && c in Shape(v).dirs && DOTDOT in Shape(v).dirs[c]
             && u == Up(Shape(v), c)
    requires u in v.fs.inodes && DirOk(v.fs, u) && b < BLOCKS && k < PER_BLOCK
             && 0 < v.fs.inodes[u].sectors[b] < |v.fs.disk|
    requires Ino(RecAt(v.fs.disk[v.fs.inodes[u].sectors[b]], k)) == c
    ensures TreeInv(Shape(v)) && NameOf(RecAt(v.fs.disk[v.fs.inodes[u].sectors[b]], k)) == NameIn(Shape(v), c)
  {
    hide Good, Shape, Sizes, TableOk, RecAt, Ino, NameOf, LiveCount;
    EntryInBlock(v.fs.disk, v.fs.inodes[u].sectors, b, k);
    TheChild(v, c, PER_BLOCK * b + k);
  }

  lemma ChildIsThere(v: Vol, c: Word)
    requires Good(v) && Sizes(v.fs) && c in v.dirs && c != 0 && c in Shape(v).dirs && DOTDOT in Shape(v).dirs[c]
    requires Up(Shape(v), c) in v.fs.inodes
    ensures !NoIno(v.fs, Up(Shape(v), c), c, PLACES)
  {
    hide OwnInv, RootDir, ShapesOk, TreeInv, DirOk, DirMap, Entries, Live, Ino, Lists;
    ParentFacts(v, c);
    var u := Up(Shape(v), c);
    EntryIsThere(v.fs, v.dirs, v.depth, u, NameIn(Shape(v), c), c);
    var p :| 0 <= p < PLACES && EntryOf(v.fs, u, c, p);
  }

  // ---------------------------------------------------------------------------------------
  // Putting the path together.

  /** The first part of sys_getcwd: up to the root, names in reverse order. */
  method ClimbUp(vol: Volume, cwd: nat) returns (r: Outcome<Path>, ghost names: seq<Name>)
    requires vol.Valid() && cwd in vol.dirs
    ensures TreeInv(Shape(vol.Now())) && cwd in Shape(vol.Now()).dirs
    ensures PathTo(Shape(vol.Now()), cwd) == Reverse(names) && r == Done(Join(names))
  {
    hide Good, Shape, TreeInv, InodeBits, Sizes, OwnInv, DirOk, Join, Reverse, PathTo, Bitmap.Contents, Bitmap.Valid;
    ghost var v := vol.Now();
    ghost var t := Shape(v);
    DirOfVol(v, cwd);
    TreeOfVol(v);
    var child: nat := cwd;
    var path: Path := [];
    names := [];
    Empties(t, cwd);
    while child != 0
      invariant child in vol.dirs && child in t.dirs
      invariant path == Join(names) && PathTo(t, cwd) == PathTo(t, child) + Reverse(names)
      decreases if child in t.depth then t.depth[child] else 0
    {
      ParentFacts(v, child);
      UpDown(t, child);
      SmallIno(t, child);
      var parent := GetParent(vol, child);
      if parent.AssertFailed? {
        return AssertFailed, names;
      }
      var more := GetChildName(vol, parent.value, child, path);
      if more.None? {
        return Exhausted, names;
      }
      ClimbStep(t, child, names);
      path := more.value;
      names := names + [NameIn(t, child)];
      child := parent.value;
    }
    RootPathTo(t, names);
    return Done(path), names;
  }

  lemma Empties(t: Tree, c: nat)
    requires TreeInv(t) && c in t.dirs
    ensures Join([]) == [] && PathTo(t, c) == PathTo(t, c) + Reverse([])
  {
  }

  lemma RootPathTo(t: Tree, names: seq<Name>)
    requires TreeInv(t) && 0 in t.dirs
    ensures PathTo(t, 0) + Reverse(names) == Reverse(names)
  {
  }

  lemma ClimbStep(t: Tree, c: nat, names: seq<Name>)
    requires TreeInv(t) && c in t.dirs && c != 0
    ensures DOTDOT in t.dirs[c] && Up(t, c) in t.dirs
    ensures var n := NameIn(t, c);
            && Join(names + [n]) == Join(names) + [SLASH] + n
            && PathTo(t, c) + Reverse(names) == PathTo(t, Up(t, c)) + Reverse(names + [n])
  {
    hide TreeInv;
    UpDown(t, c);
    var n := NameIn(t, c);
    assert (names + [n])[..|names|] == names;
    ReverseMore(names, n);
    assert PathTo(t, Up(t, c)) + [n] + Reverse(names) == PathTo(t, Up(t, c)) + ([n] + Reverse(names));
  }

  /** strrchr(p, '/'). */
  method LastSlash(p: Path) returns (r: Option<nat>)
    ensures r.Some? ==> r.value < |p| && p[r.value] == SLASH && forall k :: r.value < k < |p| ==> p[k] != SLASH
    ensures r.None? ==> forall k :: 0 <= k < |p| ==> p[k] != SLASH
  {
    var i := |p|;
    while i > 0
      invariant 0 <= i <= |p| && forall k :: i <= k < |p| ==> p[k] != SLASH
    {
      i := i - 1;
      if p[i] == SLASH {
        return Some(i);
      }
    }
    return None;
  }

  /** The second part of sys_getcwd: cut the reversed path at its last slash until none is left. */
  method TurnAround(reversed: Path, ghost names: seq<Name>) returns (buf: Path)
    requires reversed == Join(names) && forall n :: n in names ==> PathName(n)
    ensures buf == Join(Reverse(names))
  {
    hide Join, Reverse, PathName;
    buf := [];
    var left := reversed;
    ghost var k := |names|;
    assert names[..k] == names;
    NothingTurned(names);
    while true
      invariant 0 <= k <= |names| && left == Join(names[..k]) && buf == Join(Reverse(names[k..]))
      decreases k
    {
      var lastSlash := LastSlash(left);
      SlashOfJoin(names[..k], lastSlash);
      if lastSlash.None? {
        assert k == 0 && names[0..] == names;
        return;
      }
      TurnStep(names, k);
      buf := buf + left[lastSlash.value..];
      left := left[..lastSlash.value];
      k := k - 1;
    }
  }

  lemma NothingTurned(names: seq<Name>)
    ensures Join(Reverse(names[|names|..])) == []
  {
  }

  lemma TurnStep(names: seq<Name>, k: nat)
    requires 0 < k <= |names|
    ensures names[..k][..k - 1] == names[..k - 1] && names[..k][k - 1] == names[k - 1]
    ensures Join(Reverse(names[k - 1..])) == Join(Reverse(names[k..])) + ([SLASH] + names[k - 1])
  {
    var more := Reverse(names[k..]) + [names[k - 1]];
    assert names[k - 1..][1..] == names[k..];
    assert Reverse(names[k - 1..]) == more;
    assert more[..|more| - 1] == Reverse(names[k..]);
    assert Join(more) == Join(Reverse(names[k..])) + [SLASH] + names[k - 1];
  }

  /** sys_getcwd: the path from the root; it halts iff the caller's buffer is shorter than that. fits:
      the path has room in the 512 bytes it is first collected in, which the code does not look at;
      otherwise nothing is promised. */
  method GetCwd(vol: Volume, cwd: nat, size: nat) returns (r: Outcome<Path>, fits: bool)
    requires vol.Valid() && cwd in vol.dirs
    ensures TreeInv(Shape(vol.Now())) && cwd in Shape(vol.Now()).dirs
    ensures cwd == 0 ==> fits && r == Done([SLASH])
    ensures cwd != 0 ==> var path := Join(PathTo(Shape(vol.Now()), cwd));
                         && (fits <==> |path| < MAX_PATH)
                         && (fits ==> r == if |path| > size then AssertFailed else Done(path))
  {
    hide Good, Shape, TreeInv, InodeBits, Sizes, OwnInv, DirOk, Join, Reverse, PathTo, PathName, Bitmap.Contents,
         Bitmap.Valid;
    ghost var v := vol.Now();
    DirOfVol(v, cwd);
    TreeOfVol(v);
    if cwd == 0 {
      return Done([SLASH]), true;
    }
    var climb, names := ClimbUp(vol, cwd);
    if !climb.Done? {
      return climb, true;
    }
    fits := |climb.value| < MAX_PATH;
    NamesOnTheWay(Shape(v), cwd, names);
    JoinLength(names);
    if !fits || |climb.value| > size {
      return AssertFailed, fits;
    }
    var buf := TurnAround(climb.value, names);
    return Done(buf), true;
  }

  lemma NamesOnTheWay(t: Tree, c: nat, names: seq<Name>)
    requires TreeInv(t) && c in t.dirs && PathTo(t, c) == Reverse(names)
    ensures forall n :: n in names ==> PathName(n)
  {
    hide TreeInv, PathTo;
    PathNames(t, c);
    ReverseSame(names);
    forall n | n in names ensures PathName(n) {
      assert GoodName(n);
    }
  }

  /** What sys_getcwd prints, search_file resolves to the directory it was asked about. */
  method CwdRoundTrip(vol: Volume, cwd: nat, size: nat) returns (path: Path, found: Search)
    requires vol.Valid() && cwd in vol.dirs && cwd < 0x1_0000_0000
    requires TreeInv(Shape(vol.Now())) && cwd in Shape(vol.Now()).dirs
    requires |Join(PathTo(Shape(vol.Now()), cwd))| < MAX_PATH <= size
    ensures found.item == Some(Item(cwd, FT_DIRECTORY))
    ensures Components(path) == PathTo(Shape(vol.Now()), cwd)
  {
    hide Good, Shape, TreeInv, InodeBits, Sizes, OwnInv, DirOk, Join, PathTo, PathOk, Components, Resolve,
         Bitmap.Contents, Bitmap.Valid;
    ghost var t := Shape(vol.Now());
    var r, _ := GetCwd(vol, cwd, size);
    path := r.value;
    PrintedPathOk(t, cwd, path);
    found := SearchFile(vol, path);
    PathResolves(t, cwd);
  }

  lemma PrintedPathOk(t: Tree, c: nat, path: Path)
    requires TreeInv(t) && c in t.dirs && |Join(PathTo(t, c))| < MAX_PATH
    requires path == if c == 0 then [SLASH] else Join(PathTo(t, c))
    ensures PathOk(path) && Components(path) == PathTo(t, c)
  {
    hide TreeInv, Components, GoodName;
    PathNames(t, c);
    if c == 0 {
      RootPaths([SLASH]);
      RootPathIs(t);
    } else {
      GoodPathNames(PathTo(t, c));
      SplitJoin(PathTo(t, c));
      PathNotEmpty(t, c);
      JoinCons(PathTo(t, c));
    }
  }

  lemma RootPathIs(t: Tree)
    requires TreeInv(t) && 0 in t.dirs
    ensures PathTo(t, 0) == []
  {
  }

  lemma PathNotEmpty(t: Tree, c: nat)
    requires TreeInv(t) && c in t.dirs && c != 0
    ensures PathTo(t, c) != []
  {
    hide TreeInv;
    UpDown(t, c);
  }

  lemma GoodPathNames(names: seq<Name>)
    requires forall n :: n in names ==> GoodName(n)
    ensures forall n :: n in names ==> PathName(n)
  {
    forall n | n in names ensures PathName(n) {
      assert GoodName(n);
    }
  }
}
