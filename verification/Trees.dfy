/** Directories form a tree: the meaning of the file system above the disk. What mkdir, rmdir,
    create and unlink keep, and why the path that getcwd prints leads back to the directory. */
module Trees {
  import opened DirTables
  import opened Paths

  type Listings = map<nat, map<Name, Item>>

  /** dirs: every directory, by inode number, with what it lists. files: the inode numbers of
      regular files. depth: distance of a directory from the root. */
  datatype Tree = Tree(dirs: Listings, files: set<nat>, depth: map<nat, nat>)

  ghost predicate Lists(t: Tree, d: nat, n: Name, i: nat) {
    d in t.dirs && n in t.dirs[d] && Plain(n) && t.dirs[d][n].ino == i
  }

  /** The directory that ".." of d names. */
  function Up(t: Tree, d: nat): nat
    requires d in t.dirs && DOTDOT in t.dirs[d]
  {
    t.dirs[d][DOTDOT].ino
  }

  /** "." names the directory itself, ".." one that is its parent. */
  ghost predicate DirDots(t: Tree, d: nat) {
    && d in t.dirs && DOT in t.dirs[d] && DOTDOT in t.dirs[d]
    && t.dirs[d][DOT].ino == d && t.dirs[d][DOT].kind == FT_DIRECTORY
    && Up(t, d) in t.dirs && t.dirs[d][DOTDOT].kind == FT_DIRECTORY
  }

  /** The triggers keep the solver from walking up the tree on its own. */
  ghost predicate Dots(t: Tree) {
    && DirDots(t, 0) && Up(t, 0) == 0
    && forall d {:trigger DirDots(t, d)} :: d in t.dirs ==> DirDots(t, d)
  }

  /** An entry names a file, or a directory whose ".." points back and which is not the root. */
  ghost predicate Fits(t: Tree, d: nat, n: Name)
    requires d in t.dirs && n in t.dirs[d]
  {
    var item := t.dirs[d][n];
    if item.kind == FT_DIRECTORY then
      item.ino in t.dirs && item.ino != 0 && DOTDOT in t.dirs[item.ino] && Up(t, item.ino) == d
    else item.kind == FT_REGULAR && item.ino in t.files
  }

  ghost predicate AllFit(t: Tree) {
    forall d, n {:trigger Fits(t, d, n)} :: d in t.dirs && n in t.dirs[d] && Plain(n) ==> Fits(t, d, n)
  }

  /** No inode is listed twice. */
  ghost predicate Once(t: Tree) {
    forall d, n, e, m, i :: Lists(t, d, n, i) && Lists(t, e, m, i) ==> d == e && n == m
  }

  /** Every inode but the root is listed. */
  ghost predicate AllListed(t: Tree) {
    forall i :: i in t.files || (i in t.dirs && i != 0) ==> Listed(t, i)
  }

  ghost predicate Listed(t: Tree, i: nat) {
    exists d, n :: Lists(t, d, n, i)
  }

  ghost predicate DepthOk(t: Tree, d: nat) {
    && d in t.dirs && DOTDOT in t.dirs[d] && d in t.depth
    && (d != 0 ==> Up(t, d) in t.depth && t.depth[d] == t.depth[Up(t, d)] + 1)
  }

  ghost predicate Depths(t: Tree) {
    t.depth.Keys == t.dirs.Keys && forall d {:trigger DepthOk(t, d)} :: d in t.dirs ==> DepthOk(t, d)
  }

  ghost predicate Names(t: Tree) {
    forall d, n :: d in t.dirs && n in t.dirs[d] ==> GoodName(n)
  }

  ghost predicate TreeInv(t: Tree) {
    Dots(t) && AllFit(t) && Once(t) && AllListed(t) && Depths(t) && Names(t) && t.files !! t.dirs.Keys
  }

  // ---------------------------------------------------------------------------------------
  // Steps.

  function NewListing(c: nat, d: nat): map<Name, Item>
    requires c < 0x1_0000_0000 && d < 0x1_0000_0000
  {
    map[DOT := Item(c, FT_DIRECTORY), DOTDOT := Item(d, FT_DIRECTORY)]
  }

  ghost predicate MayAdd(t: Tree, d: nat, n: Name, c: nat) {
    && TreeInv(t) && d in t.dirs && n !in t.dirs[d] && GoodName(n) && Plain(n)
    && c !in t.dirs && c !in t.files && c < 0x1_0000_0000 && d < 0x1_0000_0000
  }

  /** file_create: a file with inode number c appears in directory d. */
  ghost function AddFile(t: Tree, d: nat, n: Name, c: nat): Tree
    requires MayAdd(t, d, n, c)
  {
    Tree(t.dirs[d := t.dirs[d][n := Item(c, FT_REGULAR)]], t.files + {c}, t.depth)
  }

  /** sys_mkdir. */
  ghost function AddDir(t: Tree, d: nat, n: Name, c: nat): Tree
    requires MayAdd(t, d, n, c)
  {
    var dirs := t.dirs[d := t.dirs[d][n := Item(c, FT_DIRECTORY)]];
    Tree(dirs[c := NewListing(c, d)], t.files, t.depth[c := t.depth[d] + 1])
  }

  /** sys_unlink. */
  ghost function DropFile(t: Tree, d: nat, n: Name): Tree
    requires d in t.dirs && n in t.dirs[d]
  {
    Tree(t.dirs[d := t.dirs[d] - {n}], t.files - {t.dirs[d][n].ino}, t.depth)
  }

  /** sys_rmdir. */
  ghost function DropDir(t: Tree, d: nat, n: Name): Tree
    requires d in t.dirs && n in t.dirs[d]
  {
    var c: nat := t.dirs[d][n].ino;
    Tree(t.dirs[d := t.dirs[d] - {n}] - {c}, t.files, t.depth - {c})
  }

  lemma AddFileKeeps(t: Tree, d: nat, n: Name, c: nat)
    requires MayAdd(t, d, n, c)
    ensures TreeInv(AddFile(t, d, n, c))
  {
    hide Dots, AllFit, Once, AllListed, Depths, Names, Lists, Listed, ListsMore;
    var u := AddFile(t, d, n, c);
    NotListedYet(t, c);
    AddFileDots(t, d, n, c);
    AddFileDepths(t, d, n, c);
    AddFileNames(t, d, n, c);
    AddFileFits(t, d, n, c);
    AddFileLists(t, d, n, c);
    AddOnce(t, u, d, n, c);
    AddListed(t, u, d, n, c);
  }

  lemma AddFileDots(t: Tree, d: nat, n: Name, c: nat)
    requires MayAdd(t, d, n, c)
    ensures var u := AddFile(t, d, n, c); Dots(u)
  {
    hide Names, Depths, AllFit, Once, AllListed, GoodName;
    var u := AddFile(t, d, n, c);
    assert DirDots(t, 0);
    forall e | e in u.dirs ensures DirDots(u, e) {
      assert DirDots(t, e);
    }
  }

  lemma AddFileDepths(t: Tree, d: nat, n: Name, c: nat)
    requires MayAdd(t, d, n, c)
    ensures Depths(AddFile(t, d, n, c))
  {
    hide Names, AllFit, Once, AllListed, GoodName;
    var u := AddFile(t, d, n, c);
    forall e | e in u.dirs ensures DepthOk(u, e) {
      assert DirDots(t, e) && DepthOk(t, e);
    }
  }

  lemma AddFileNames(t: Tree, d: nat, n: Name, c: nat)
    requires MayAdd(t, d, n, c)
    ensures Names(AddFile(t, d, n, c))
  {
    hide Dots, AllFit, Once, AllListed, Depths, GoodName;
  }

  lemma AddFileFits(t: Tree, d: nat, n: Name, c: nat)
    requires MayAdd(t, d, n, c)
    ensures Dots(AddFile(t, d, n, c)) && AllFit(AddFile(t, d, n, c))
  {
    hide Once, AllListed, Depths, Names, GoodName;
    AddFileDots(t, d, n, c);
    var u := AddFile(t, d, n, c);
    forall e, m | e in u.dirs && m in u.dirs[e] && Plain(m) ensures Fits(u, e, m) {
      if !(e == d && m == n) {
        assert Fits(t, e, m);
      }
    }
  }

  lemma AddFileLists(t: Tree, d: nat, n: Name, c: nat)
    requires MayAdd(t, d, n, c)
    ensures ListsMore(t, AddFile(t, d, n, c), d, n, c)
  {
    hide Dots, AllFit, Once, AllListed, Depths, Names, GoodName;
  }

  lemma NotListedYet(t: Tree, c: nat)
    requires AllFit(t) && c !in t.dirs && c !in t.files
    ensures !Listed(t, c)
  {
    forall d, n ensures !Lists(t, d, n, c) {
      if d in t.dirs && n in t.dirs[d] && Plain(n) {
        ListedIsThere(t, d, n);
      }
    }
  }

  lemma ListedIsThere(t: Tree, d: nat, n: Name)
    requires AllFit(t) && d in t.dirs && n in t.dirs[d] && Plain(n)
    ensures t.dirs[d][n].ino in t.dirs || t.dirs[d][n].ino in t.files
  {
    assert Fits(t, d, n);
  }

  /** u lists what t does, and inode c as n in d. */
  ghost predicate ListsMore(t: Tree, u: Tree, d: nat, n: Name, c: nat) {
    forall e, m, i :: Lists(u, e, m, i) <==> Lists(t, e, m, i) || (e == d && m == n && i == c)
  }

  lemma AddOnce(t: Tree, u: Tree, d: nat, n: Name, c: nat)
    requires Once(t) && ListsMore(t, u, d, n, c) && !Listed(t, c)
    ensures Once(u)
  {
    hide Lists;
  }

  lemma AddListed(t: Tree, u: Tree, d: nat, n: Name, c: nat)
    requires AllListed(t) && ListsMore(t, u, d, n, c) && u.files <= t.files + {c} && u.dirs.Keys <= t.dirs.Keys + {c}
    ensures AllListed(u)
  {
    hide Lists;
    forall i | i in u.files || (i in u.dirs && i != 0) ensures Listed(u, i) {
      if i == c {
        assert Lists(u, d, n, c);
      } else {
        assert Listed(t, i);
        var e, m :| Lists(t, e, m, i);
        assert Lists(u, e, m, i);
      }
    }
  }

  lemma AddDirKeeps(t: Tree, d: nat, n: Name, c: nat)
    requires MayAdd(t, d, n, c)
    ensures TreeInv(AddDir(t, d, n, c))
  {
    hide Dots, AllFit, Once, AllListed, Depths, Names, Lists, Listed, ListsMore;
    var u := AddDir(t, d, n, c);
    NotListedYet(t, c);
    AddDirDots(t, d, n, c);
    AddDirNames(t, d, n, c);
    AddDirDepths(t, d, n, c);
    AddDirFits(t, d, n, c);
    AddDirLists(t, d, n, c);
    AddOnce(t, u, d, n, c);
    AddListed(t, u, d, n, c);
  }

  lemma AddDirDots(t: Tree, d: nat, n: Name, c: nat)
    requires MayAdd(t, d, n, c)
    ensures var u := AddDir(t, d, n, c); Dots(u)
  {
    hide Names, AllFit, Once, AllListed, Depths;
    var u := AddDir(t, d, n, c);
    forall e | e in u.dirs ensures DirDots(u, e) {
      assert e != c ==> DirDots(t, e);
    }
  }

  lemma AddDirDepths(t: Tree, d: nat, n: Name, c: nat)
    requires MayAdd(t, d, n, c)
    ensures var u := AddDir(t, d, n, c); Dots(u) && Depths(u)
  {
    hide AllFit, Once, AllListed, Names, GoodName;
    AddDirDots(t, d, n, c);
    var u := AddDir(t, d, n, c);
    forall e | e in u.dirs ensures DepthOk(u, e) {
      assert DirDots(u, e);
      assert e != c ==> DirDots(t, e) && DepthOk(t, e);
    }
    assert DepthOk(t, d);
  }

  lemma DotNames()
    ensures GoodName(DOT) && GoodName(DOTDOT)
  {
  }

  lemma AddDirNames(t: Tree, d: nat, n: Name, c: nat)
    requires MayAdd(t, d, n, c)
    ensures Names(AddDir(t, d, n, c))
  {
    hide Dots, AllFit, Once, AllListed, Depths, GoodName;
    DotNames();
  }

  lemma AddDirFits(t: Tree, d: nat, n: Name, c: nat)
    requires MayAdd(t, d, n, c)
    ensures Dots(AddDir(t, d, n, c)) && AllFit(AddDir(t, d, n, c))
  {
    hide Once, AllListed, Depths, Names, GoodName;
    AddDirDots(t, d, n, c);
    var u := AddDir(t, d, n, c);
    forall e, m | e in u.dirs && m in u.dirs[e] && Plain(m) ensures Fits(u, e, m) {
      if e != c && !(e == d && m == n) {
        assert Fits(t, e, m);
      }
    }
  }

  lemma AddDirLists(t: Tree, d: nat, n: Name, c: nat)
    requires MayAdd(t, d, n, c)
    ensures ListsMore(t, AddDir(t, d, n, c), d, n, c)
  {
    hide Dots, AllFit, Once, AllListed, Depths, Names, GoodName;
  }

  /** u lists what t does but inode c, which was n in d. */
  ghost predicate ListsLess(t: Tree, u: Tree, d: nat, n: Name) {
    forall e, m, i :: Lists(u, e, m, i) <==> Lists(t, e, m, i) && !(e == d && m == n)
  }

  lemma DropOnce(t: Tree, u: Tree, d: nat, n: Name)
    requires Once(t) && ListsLess(t, u, d, n)
    ensures Once(u)
  {
    hide Lists;
  }

  lemma DropListed(t: Tree, u: Tree, d: nat, n: Name, c: nat)
    requires AllListed(t) && ListsLess(t, u, d, n) && Lists(t, d, n, c)
    requires u.files <= t.files && u.dirs.Keys <= t.dirs.Keys && c !in u.files && c !in u.dirs
    ensures AllListed(u)
  {
    forall i | i in u.files || (i in u.dirs && i != 0) ensures Listed(u, i) {
      assert Listed(t, i);
      var e, m :| Lists(t, e, m, i);
      assert Lists(u, e, m, i);
    }
  }

  ghost predicate MayDrop(t: Tree, d: nat, n: Name) {
    TreeInv(t) && d in t.dirs && n in t.dirs[d] && Plain(n)
  }

  lemma DropFileKeeps(t: Tree, d: nat, n: Name)
    requires MayDrop(t, d, n) && t.dirs[d][n].kind == FT_REGULAR
    ensures TreeInv(DropFile(t, d, n))
  {
    hide AllFit, Once, AllListed, Depths, Names, Listed, ListsLess;
    var u := DropFile(t, d, n);
    DropFileDots(t, d, n);
    DropFileDepths(t, d, n);
    DropFileNames(t, d, n);
    DropFileFits(t, d, n);
    DropFileLists(t, d, n);
    assert Lists(t, d, n, t.dirs[d][n].ino);
    DropOnce(t, u, d, n);
    DropListed(t, u, d, n, t.dirs[d][n].ino);
  }

  lemma DropFileDots(t: Tree, d: nat, n: Name)
    requires MayDrop(t, d, n)
    ensures var u := DropFile(t, d, n); Dots(u)
  {
    hide Names, Depths, AllFit, Once, AllListed, GoodName;
    var u := DropFile(t, d, n);
    forall e | e in u.dirs ensures DirDots(u, e) {
      assert DirDots(t, e);
    }
  }

  lemma DropFileDepths(t: Tree, d: nat, n: Name)
    requires MayDrop(t, d, n)
    ensures Depths(DropFile(t, d, n))
  {
    hide Names, AllFit, Once, AllListed, GoodName;
    var u := DropFile(t, d, n);
    forall e | e in u.dirs ensures DepthOk(u, e) {
      assert DirDots(t, e) && DepthOk(t, e);
    }
  }

  lemma DropFileNames(t: Tree, d: nat, n: Name)
    requires MayDrop(t, d, n)
    ensures Names(DropFile(t, d, n))
  {
    hide Dots, AllFit, Once, AllListed, Depths, GoodName;
  }

  lemma DropFileFits(t: Tree, d: nat, n: Name)
    requires MayDrop(t, d, n) && t.dirs[d][n].kind == FT_REGULAR
    ensures t.dirs[d][n].ino !in t.dirs
    ensures Dots(DropFile(t, d, n)) && AllFit(DropFile(t, d, n))
  {
    hide AllListed, Depths, Names, GoodName;
    DropFileDots(t, d, n);
    assert Fits(t, d, n);
    var u, c := DropFile(t, d, n), t.dirs[d][n].ino;
    assert Lists(t, d, n, c);
    forall e, m | e in u.dirs && m in u.dirs[e] && Plain(m) ensures Fits(u, e, m) {
      assert Fits(t, e, m);
      assert Lists(t, e, m, t.dirs[e][m].ino);
    }
  }

  lemma DropFileLists(t: Tree, d: nat, n: Name)
    requires MayDrop(t, d, n)
    ensures ListsLess(t, DropFile(t, d, n), d, n)
  {
    hide Dots, AllFit, Once, AllListed, Depths, Names, GoodName;
  }

  ghost predicate EmptyDirAt(t: Tree, d: nat, n: Name)
    requires MayDrop(t, d, n)
  {
    && t.dirs[d][n].kind == FT_DIRECTORY && t.dirs[d][n].ino in t.dirs
    && t.dirs[t.dirs[d][n].ino].Keys == {DOT, DOTDOT}
  }

  lemma DropDirKeeps(t: Tree, d: nat, n: Name)
    requires MayDrop(t, d, n) && EmptyDirAt(t, d, n)
    ensures TreeInv(DropDir(t, d, n))
  {
    hide AllFit, Once, AllListed, Depths, Names, Listed, ListsLess;
    var u := DropDir(t, d, n);
    DropDirFacts(t, d, n);
    DropDirDots(t, d, n);
    DropDirNames(t, d, n);
    DropDirDepths(t, d, n);
    DropDirFits(t, d, n);
    DropDirLists(t, d, n);
    assert Lists(t, d, n, t.dirs[d][n].ino);
    DropOnce(t, u, d, n);
    DropListed(t, u, d, n, t.dirs[d][n].ino);
  }

  /** The directory to go is neither the root, nor the one it is in, nor anybody's parent. */
  lemma DropDirFacts(t: Tree, d: nat, n: Name)
    requires MayDrop(t, d, n) && EmptyDirAt(t, d, n)
    ensures var c := t.dirs[d][n].ino;
            && c != 0 && c != d && c !in t.files && DOTDOT in t.dirs[c] && Up(t, c) == d
            && forall e :: DirDots(t, e) && e != c ==> Up(t, e) != c
  {
    hide Once, AllListed, Depths, Names, GoodName;
    var c: nat := t.dirs[d][n].ino;
    assert Fits(t, d, n);
    assert n !in t.dirs[c].Keys;
    forall e | DirDots(t, e) && e != c ensures Up(t, e) != c {
      if e != 0 {
        var m := ParentLists(t, e);
        assert m in t.dirs[Up(t, e)].Keys;
      }
    }
  }

  lemma DropDirDots(t: Tree, d: nat, n: Name)
    requires MayDrop(t, d, n) && EmptyDirAt(t, d, n)
    ensures var u := DropDir(t, d, n); Dots(u)
  {
    hide Names, AllFit, Once, AllListed, Depths, GoodName;
    DropDirFacts(t, d, n);
    var u := DropDir(t, d, n);
    forall e | e in u.dirs ensures DirDots(u, e) {
      assert DirDots(t, e);
    }
  }

  lemma DropDirDepths(t: Tree, d: nat, n: Name)
    requires MayDrop(t, d, n) && EmptyDirAt(t, d, n)
    ensures var u := DropDir(t, d, n); Dots(u) && Depths(u)
  {
    hide AllFit, Once, AllListed, Names, GoodName;
    DropDirFacts(t, d, n);
    DropDirDots(t, d, n);
    var u := DropDir(t, d, n);
    forall e | e in u.dirs ensures DepthOk(u, e) {
      assert DirDots(t, e) && DepthOk(t, e) && DirDots(u, e);
    }
  }

  lemma DropDirNames(t: Tree, d: nat, n: Name)
    requires MayDrop(t, d, n)
    ensures Names(DropDir(t, d, n))
  {
    hide Dots, AllFit, Once, AllListed, Depths, GoodName;
  }

  lemma DropDirFits(t: Tree, d: nat, n: Name)
    requires MayDrop(t, d, n) && EmptyDirAt(t, d, n)
    ensures Dots(DropDir(t, d, n)) && AllFit(DropDir(t, d, n))
  {
    hide AllListed, Depths, Names, GoodName;
    DropDirFacts(t, d, n);
    DropDirDots(t, d, n);
    var u, c := DropDir(t, d, n), t.dirs[d][n].ino;
    assert Lists(t, d, n, c);
    forall e, m | e in u.dirs && m in u.dirs[e] && Plain(m) ensures Fits(u, e, m) {
      assert Fits(t, e, m);
      assert Lists(t, e, m, t.dirs[e][m].ino);
    }
  }

  lemma DropDirLists(t: Tree, d: nat, n: Name)
    requires MayDrop(t, d, n) && EmptyDirAt(t, d, n)
    ensures ListsLess(t, DropDir(t, d, n), d, n)
  {
    hide AllFit, Once, AllListed, Depths, Names, GoodName;
    var u, c := DropDir(t, d, n), t.dirs[d][n].ino;
    forall e, m, i ensures Lists(u, e, m, i) <==> Lists(t, e, m, i) && !(e == d && m == n) {
      if e == c && m in t.dirs[c] {
        assert m in t.dirs[c].Keys;
      }
    }
  }

  /** A directory is listed by the one its ".." names. */
  lemma ParentLists(t: Tree, c: nat) returns (n: Name)
    requires TreeInv(t) && c in t.dirs && c != 0
    ensures DirDots(t, c) && Lists(t, Up(t, c), n, c)
  {
    assert DirDots(t, c);
    assert Listed(t, c);
    var d, m :| Lists(t, d, m, c);
    assert Fits(t, d, m);
    n := m;
  }
}
