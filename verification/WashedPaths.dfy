/** What a washed path (src/shell/buildin_cmd.c) means to search_file (src/fs/fs.c): the same directory,
    or the same file if the path ends with it. */
module WashedPaths {
  import opened Results
  import opened DirTables
  import opened Paths
  import opened Trees
  import opened TreePaths
  import opened Searching
  import opened Washing

  /** The washed path leads to a directory iff the components, folded, are the directory's path: whether
      what ".." dropped exists does not matter. */
  lemma WashedLeadsTo(t: Tree, c: nat, p: Path)
    requires TreeInv(t) && c in t.dirs && c < 0x1_0000_0000
    ensures Resolve(t, 0, Components(Canonical(p))) == Some(Item(c, FT_DIRECTORY)) <==>
            Fold(Components(p)) == PathTo(t, c)
  {
    hide TreeInv, Resolve, PathTo, Components, Fold, Canonical;
    WashedComponents(p);
    OnlyPath(t, c, Fold(Components(p)));
  }

  /** A path to a directory still leads there when it is washed. */
  lemma WashKeepsDirectory(t: Tree, p: Path)
    requires TreeInv(t) && Resolve(t, 0, Components(p)).Some? && Resolve(t, 0, Components(p)).value.kind == FT_DIRECTORY
    ensures Resolve(t, 0, Components(Canonical(p))) == Resolve(t, 0, Components(p))
  {
    hide TreeInv, Resolve, PathTo, Components, Fold, Canonical;
    RootIn(t);
    var names := Components(p);
    var c := Resolve(t, 0, names).value.ino;
    ResolveFolds(t, 0, names);
    FoldOn([], names);
    assert [] + names == names && Fold([]) == [] by {
      NoNames();
    }
    WashedLeadsTo(t, c, p);
  }

  lemma NoNames()
    ensures Fold([]) == []
  {
  }

  lemma PlainEnters(at: seq<Name>, n: Name)
    requires Plain(n)
    ensures Enter(at, n) == at + [n]
  {
  }

  /** A path that reaches a regular file at component k, whatever follows: search_file stops there, washing goes on.
      The washed path finds the same file iff the components up to the file, folded, are the beginning of all of
      them folded, that is, iff nothing behind the file climbs out of it. */
  lemma WashThroughFile(t: Tree, p: Path, d: nat, k: nat)
    requires TreeInv(t) && d < 0x1_0000_0000 && k < |Components(p)|
    requires Resolve(t, 0, Components(p)[..k]) == Some(Item(d, FT_DIRECTORY))
    requires d in t.dirs && Components(p)[k] in t.dirs[d] && t.dirs[d][Components(p)[k]].kind != FT_DIRECTORY
    ensures Resolve(t, 0, Components(p)) == Some(t.dirs[d][Components(p)[k]])
    ensures Resolve(t, 0, Components(Canonical(p))) == Resolve(t, 0, Components(p))
            <==> Fold(Components(p)[..k + 1]) <= Fold(Components(p))
  {
    hide TreeInv, Resolve, PathTo, Components, Fold, Canonical;
    var names := Components(p);
    var f := names[k];
    StopsAt(t, names, d, k);
    WashedComponents(p);
    FileIsPlain(t, d, f);
    FoldToFile(t, names, d, k);
    if Fold(names[..k + 1]) <= Fold(names) {
      FoundBelow(t, d, f, Fold(names));
    }
    if Resolve(t, 0, Fold(names)) == Some(t.dirs[d][f]) {
      OnlyFile(t, d, f, Fold(names));
    }
  }

  /** So does a path that ends with a regular file. */
  lemma WashKeepsFile(t: Tree, p: Path, d: nat)
    requires TreeInv(t) && Components(p) != [] && d < 0x1_0000_0000
    requires Resolve(t, 0, Components(p)[..|Components(p)| - 1]) == Some(Item(d, FT_DIRECTORY))
    requires Resolve(t, 0, Components(p)).Some? && Resolve(t, 0, Components(p)).value.kind != FT_DIRECTORY
    ensures Resolve(t, 0, Components(Canonical(p))) == Resolve(t, 0, Components(p))
  {
    hide TreeInv, PathTo, Components, Canonical, Fold;
    var names := Components(p);
    var k := |names| - 1;
    assert names == names[..k] + [names[k]] && names[..k + 1] == names;
    ResolveOn(t, 0, names[..k], [names[k]], d);
    WashThroughFile(t, p, d, k);
  }

  lemma StopsAt(t: Tree, names: seq<Name>, d: nat, k: nat)
    requires d < 0x1_0000_0000 && k < |names| && Resolve(t, 0, names[..k]) == Some(Item(d, FT_DIRECTORY))
    requires d in t.dirs && names[k] in t.dirs[d] && t.dirs[d][names[k]].kind != FT_DIRECTORY
    ensures Resolve(t, 0, names) == Some(t.dirs[d][names[k]])
  {
    assert names[..k] + names[k..] == names;
    ResolveOn(t, 0, names[..k], names[k..], d);
    assert names[k..][0] == names[k];
  }

  /** Folded up to the file, the path is that of the directory and the file's name. */
  lemma FoldToFile(t: Tree, names: seq<Name>, d: nat, k: nat)
    requires TreeInv(t) && d < 0x1_0000_0000 && k < |names|
    requires Resolve(t, 0, names[..k]) == Some(Item(d, FT_DIRECTORY)) && Plain(names[k])
    ensures d in t.dirs && Fold(names[..k + 1]) == PathTo(t, d) + [names[k]]
  {
    hide TreeInv, Resolve, PathTo, Fold;
    RootIn(t);
    ResolveFolds(t, 0, names[..k]);
    NoNames();
    FoldOn([], names[..k]);
    assert [] + names[..k] == names[..k];
    FoldMore(names[..k], names[k]);
    PlainEnters(Fold(names[..k]), names[k]);
    assert names[..k] + [names[k]] == names[..k + 1];
  }

  /** Whatever follows the file's path, the search finds the file. */
  lemma FoundBelow(t: Tree, d: nat, f: Name, names: seq<Name>)
    requires TreeInv(t) && d in t.dirs && d < 0x1_0000_0000 && f in t.dirs[d] && t.dirs[d][f].kind != FT_DIRECTORY
    requires PathTo(t, d) + [f] <= names
    ensures Resolve(t, 0, names) == Some(t.dirs[d][f])
  {
    hide TreeInv, Resolve, PathTo;
    var k := |PathTo(t, d)|;
    PathResolves(t, d);
    assert names[..k] == PathTo(t, d) && names[k] == f;
    StopsAt(t, names, d, k);
  }

  /** A path without dots that finds the file begins with the file's path: no inode is listed twice. */
  lemma OnlyFile(t: Tree, d: nat, f: Name, names: seq<Name>)
    requires TreeInv(t) && d in t.dirs && f in t.dirs[d] && Plain(f) && t.dirs[d][f].kind != FT_DIRECTORY
    requires (forall n :: n in names ==> Plain(n)) && Resolve(t, 0, names) == Some(t.dirs[d][f])
    ensures PathTo(t, d) + [f] <= names
  {
    hide Dots, AllFit, AllListed, Depths, Names, Resolve, SearchIn, PathTo;
    RootThereIn(t);
    RootIsNoFile(t, names, t.dirs[d][f]);
    SearchFacts(t, 0, names);
    var r := SearchIn(t, 0, names);
    var e, j := r.parent, r.seen - 1;
    assert Plain(names[j]);
    assert Lists(t, d, f, t.dirs[d][f].ino) && Lists(t, e, names[j], t.dirs[d][f].ino);
    OnlyPath(t, e, names[..j]);
    assert names[..j] + [names[j]] == names[..j + 1];
  }

  lemma RootIsNoFile(t: Tree, names: seq<Name>, item: Item)
    requires Resolve(t, 0, names) == Some(item) && item.kind != FT_DIRECTORY
    ensures names != []
  {
  }

  /** The dots are directories. */
  lemma FileIsPlain(t: Tree, d: nat, f: Name)
    requires TreeInv(t) && d in t.dirs && f in t.dirs[d] && t.dirs[d][f].kind != FT_DIRECTORY
    ensures Plain(f)
  {
    assert DirDots(t, d);
  }

  /** Behind a regular file search_file looks no further, washing does: "/f/.." is the file f, and washed
      it is the root. */
  lemma WashedAwayFile(t: Tree, f: Name)
    requires TreeInv(t) && 0 in t.dirs && f in t.dirs[0] && t.dirs[0][f].kind != FT_DIRECTORY && PathName(f)
    ensures Resolve(t, 0, Components([SLASH] + f + ([SLASH] + DOTDOT))) == Some(t.dirs[0][f])
    ensures Canonical([SLASH] + f + ([SLASH] + DOTDOT)) == [SLASH]
  {
    hide TreeInv, Components, Fold;
    FileAndUp(f);
    FoldedUp(f);
    PlainFile(t, f);
    FileIsPlain(t, 0, f);
  }

  lemma FileAndUp(f: Name)
    requires PathName(f)
    ensures Components([SLASH] + f + ([SLASH] + DOTDOT)) == [f, DOTDOT]
  {
    hide Components;
    JoinNone();
    ComponentsCons(DOTDOT, []);
    assert [SLASH] + DOTDOT + [] == [SLASH] + DOTDOT;
    ComponentsCons(f, [SLASH] + DOTDOT);
    assert [f] + ([DOTDOT] + []) == [f, DOTDOT];
  }

  lemma FoldedUp(f: Name)
    ensures f != DOT && f != DOTDOT ==> Fold([f, DOTDOT]) == []
  {
    hide Fold;
    NoNames();
    FoldMore([], f);
    FoldMore([f], DOTDOT);
    assert [] + [f] == [f] && [f] + [DOTDOT] == [f, DOTDOT];
  }

  lemma PlainFile(t: Tree, f: Name)
    requires 0 in t.dirs && f in t.dirs[0] && t.dirs[0][f].kind != FT_DIRECTORY
    ensures Resolve(t, 0, [f, DOTDOT]) == Some(t.dirs[0][f])
  {
  }
}
