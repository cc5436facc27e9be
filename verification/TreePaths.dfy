/** Paths in the tree of directories: what search_file finds, what sys_getcwd prints, and that the
    two are inverse. */
module TreePaths {
  import opened Results
  import opened Bytes
  import opened DirTables
  import opened Paths
  import opened Trees

  /** What search_file finds from directory d on: it enters directories and stops at the first
      regular file, whatever components follow. */
  function Resolve(t: Tree, d: nat, names: seq<Name>): (r: Option<Item>)
    requires d < 0x1_0000_0000
    decreases |names|
  {
    if names == [] then Some(Item(d, FT_DIRECTORY))
    else if d !in t.dirs || names[0] !in t.dirs[d] then None
    else
      var item := t.dirs[d][names[0]];
      if item.kind == FT_DIRECTORY then Resolve(t, item.ino, names[1..]) else Some(item)
  }

  lemma UpDown(t: Tree, c: nat)
    requires TreeInv(t) && c in t.dirs && c != 0
    ensures DOTDOT in t.dirs[c] && Up(t, c) in t.dirs && Up(t, c) in t.depth && c in t.depth
    ensures t.depth[Up(t, c)] < t.depth[c]
    ensures exists n :: Lists(t, Up(t, c), n, c)
  {
    assert DirDots(t, c) && DepthOk(t, c);
    var n := ParentLists(t, c);
  }

  /** The name of a directory in its parent. */
  ghost function NameIn(t: Tree, c: nat): (n: Name)
    requires TreeInv(t) && c in t.dirs && c != 0
    ensures DOTDOT in t.dirs[c] && Lists(t, Up(t, c), n, c)
  {
    UpDown(t, c);
    var n :| Lists(t, Up(t, c), n, c);
    n
  }

  /** The path from the root, by way of "..": it ends since the depth falls. */
  ghost function PathTo(t: Tree, c: nat): (r: seq<Name>)
    requires TreeInv(t) && c in t.dirs
    decreases if c in t.depth then t.depth[c] else 0
  {
    if c == 0 then [] else
      UpDown(t, c);
      PathTo(t, Up(t, c)) + [NameIn(t, c)]
  }

  lemma {:induction false} PathNames(t: Tree, c: nat)
    requires TreeInv(t) && c in t.dirs
    ensures forall n :: n in PathTo(t, c) ==> GoodName(n) && Plain(n)
    decreases if c in t.depth then t.depth[c] else 0
  {
    hide Dots, AllFit, Once, AllListed, Depths, GoodName;
    if c != 0 {
      UpDown(t, c);
      PathNames(t, Up(t, c));
      var n := NameIn(t, c);
      forall m | m in PathTo(t, c) ensures GoodName(m) && Plain(m) {
        assert m in PathTo(t, Up(t, c)) || m == n;
      }
    }
  }

  /** One component: the path of the directory entered. */
  lemma EnterStep(t: Tree, d: nat, n: Name)
    requires TreeInv(t) && d in t.dirs && n in t.dirs[d] && t.dirs[d][n].kind == FT_DIRECTORY
    ensures t.dirs[d][n].ino in t.dirs && PathTo(t, t.dirs[d][n].ino) == Enter(PathTo(t, d), n)
  {
    hide AllListed, Names;
    var c: nat := t.dirs[d][n].ino;
    assert DirDots(t, d);
    if n == DOTDOT {
      if d != 0 {
        UpDown(t, d);
        assert PathTo(t, d)[..|PathTo(t, d)| - 1] == PathTo(t, Up(t, d));
      }
    } else if n != DOT {
      assert Fits(t, d, n);
      assert Lists(t, d, n, c) && Lists(t, Up(t, c), NameIn(t, c), c);
    }
  }

  /** Whatever path leads to a directory, folding its dots away gives the directory's own path. */
  lemma {:induction false} ResolveFolds(t: Tree, d: nat, names: seq<Name>)
    requires TreeInv(t) && d in t.dirs && d < 0x1_0000_0000
    requires Resolve(t, d, names).Some? && Resolve(t, d, names).value.kind == FT_DIRECTORY
    ensures Resolve(t, d, names).value.ino in t.dirs
    ensures PathTo(t, Resolve(t, d, names).value.ino) == FoldFrom(PathTo(t, d), names)
    decreases |names|
  {
    hide TreeInv, PathTo, Enter;
    if names != [] {
      EnterStep(t, d, names[0]);
      ResolveFolds(t, t.dirs[d][names[0]].ino, names[1..]);
    }
  }

  lemma {:induction false} ResolveOn(t: Tree, d: nat, a: seq<Name>, b: seq<Name>, e: Word)
    requires d < 0x1_0000_0000 && Resolve(t, d, a) == Some(Item(e, FT_DIRECTORY))
    ensures Resolve(t, d, a + b) == Resolve(t, e, b)
    decreases |a|
  {
    if a == [] {
      assert a + b == b;
    } else {
      assert (a + b)[1..] == a[1..] + b;
      ResolveOn(t, t.dirs[d][a[0]].ino, a[1..], b, e);
    }
  }

  lemma SmallIno(t: Tree, c: nat)
    requires TreeInv(t) && c in t.dirs
    ensures c < 0x1_0000_0000
  {
    assert DirDots(t, c);
  }

  /** The path of a directory leads to it. */
  lemma {:induction false} PathResolves(t: Tree, c: nat)
    requires TreeInv(t) && c in t.dirs
    ensures c < 0x1_0000_0000 && Resolve(t, 0, PathTo(t, c)) == Some(Item(c, FT_DIRECTORY))
    decreases if c in t.depth then t.depth[c] else 0
  {
    hide Dots, Once, AllListed, Depths, Names;
    SmallIno(t, c);
    if c != 0 {
      UpDown(t, c);
      var u, n := Up(t, c), NameIn(t, c);
      PathResolves(t, u);
      ResolveOn(t, 0, PathTo(t, u), [n], u);
      EntryOfDir(t, u, n, c);
      assert Resolve(t, u, [n]) == Resolve(t, c, []);
    }
  }

  lemma EntryOfDir(t: Tree, u: nat, n: Name, c: nat)
    requires TreeInv(t) && Lists(t, u, n, c) && c in t.dirs
    ensures t.dirs[u][n].ino == c && t.dirs[u][n].kind == FT_DIRECTORY
  {
    assert Fits(t, u, n);
  }

  /** search_file and sys_getcwd, on components: the path of a directory is the only one without
      dots that leads to it. */
  lemma OnlyPath(t: Tree, c: nat, names: seq<Name>)
    requires TreeInv(t) && c in t.dirs && c < 0x1_0000_0000
    requires forall n :: n in names ==> Plain(n)
    ensures Resolve(t, 0, names) == Some(Item(c, FT_DIRECTORY)) <==> names == PathTo(t, c)
  {
    hide Dots, AllFit, Once, AllListed, Depths, Names;
    PathResolves(t, c);
    if Resolve(t, 0, names) == Some(Item(c, FT_DIRECTORY)) {
      SmallIno(t, 0);
      RootIn(t);
      ResolveFolds(t, 0, names);
      FoldOn([], names);
      assert [] + names == names;
      FoldPlain(names);
    }
  }

  lemma RootIn(t: Tree)
    requires TreeInv(t)
    ensures 0 in t.dirs && PathTo(t, 0) == []
  {
  }
}
