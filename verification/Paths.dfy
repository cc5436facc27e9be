/** Path names and path_parse (src/fs/fs.c): a path is a list of components separated by slashes. */
module Paths {
  import opened Results
  import opened Bytes
  import opened DirTables

  /** A component that names something, not "." or "..". */
  predicate Plain(n: Name) {
    n != DOT && n != DOTDOT
  }

  /** One path component after the others: "." stays, ".." goes up and stays at the root. */
  function Enter(at: seq<Name>, n: Name): (r: seq<Name>) {
    if n == DOT then at
    else if n == DOTDOT then (if at == [] then [] else at[..|at| - 1])
    else at + [n]
  }

  /** The canonical list of components of a path, from the left. */
  function Fold(names: seq<Name>): (r: seq<Name>) {
    if names == [] then [] else Enter(Fold(names[..|names| - 1]), names[|names| - 1])
  }

  /** Going on from a place. */
  function FoldFrom(at: seq<Name>, names: seq<Name>): (r: seq<Name>)
    decreases |names|
  {
    if names == [] then at else FoldFrom(Enter(at, names[0]), names[1..])
  }

  lemma {:induction false} FoldOn(a: seq<Name>, b: seq<Name>)
    ensures FoldFrom(Fold(a), b) == Fold(a + b)
    decreases b
  {
    if b == [] {
      assert a + b == a;
    } else {
      var c := a + [b[0]];
      assert c[..|c| - 1] == a;
      assert c + b[1..] == a + b;
      FoldOn(c, b[1..]);
    }
  }

  lemma {:induction false} FoldIsPlain(names: seq<Name>)
    ensures forall n :: n in Fold(names) ==> Plain(n) && n in names
  {
    if names != [] {
      var init, last := names[..|names| - 1], names[|names| - 1];
      FoldIsPlain(init);
      forall n | n in Enter(Fold(init), last) ensures Plain(n) && n in names {
        assert n in Fold(init) || (n == last && Plain(last));
      }
    }
  }

  /** Folding a list without dots does nothing. */
  lemma {:induction false} FoldPlain(names: seq<Name>)
    requires forall n :: n in names ==> Plain(n)
    ensures Fold(names) == names
  {
    if names != [] {
      FoldPlain(names[..|names| - 1]);
      assert Plain(names[|names| - 1]);
      assert names == names[..|names| - 1] + [names[|names| - 1]];
    }
  }

  // ---------------------------------------------------------------------------------------
  // Strings.

  type Path = seq<Byte>

  function SkipSlashes(p: Path): (r: Path)
    ensures |r| <= |p| && (r == [] || r[0] != SLASH)
  {
    if p != [] && p[0] == SLASH then SkipSlashes(p[1..]) else p
  }

  /** The part before the first slash. */
  function UpToSlash(p: Path): (r: Name)
    ensures |r| <= |p| && r == p[..|r|] && (|r| < |p| ==> p[|r|] == SLASH)
    ensures forall k :: 0 <= k < |r| ==> r[k] != SLASH
  {
    if p == [] || p[0] == SLASH then [] else [p[0]] + UpToSlash(p[1..])
  }

  /** The components of a path: what is between its slashes, empty ones dropped. */
  function Components(p: Path): (names: seq<Name>)
    ensures forall n :: n in names ==> n != [] && forall k :: 0 <= k < |n| ==> n[k] != SLASH
    decreases |p|
  {
    var q := SkipSlashes(p);
    if q == [] then [] else [UpToSlash(q)] + Components(q[|UpToSlash(q)|..])
  }

  /** The path with a slash before each component. */
  function Join(names: seq<Name>): (p: Path) {
    if names == [] then [] else Join(names[..|names| - 1]) + [SLASH] + names[|names| - 1]
  }

  predicate PathName(n: Name) {
    n != [] && forall k :: 0 <= k < |n| ==> n[k] != SLASH
  }

  function Reverse(names: seq<Name>): (r: seq<Name>)
    ensures |r| == |names|
  {
    if names == [] then [] else Reverse(names[1..]) + [names[0]]
  }

  lemma {:induction false} ReverseMore(names: seq<Name>, n: Name)
    ensures Reverse(names + [n]) == [n] + Reverse(names)
  {
    if names == [] {
      assert names + [n] == [n];
    } else {
      ReverseMore(names[1..], n);
      assert (names + [n])[1..] == names[1..] + [n];
    }
  }

  lemma {:induction false} ReverseSame(names: seq<Name>)
    ensures forall n :: n in Reverse(names) <==> n in names
  {
    if names != [] {
      ReverseSame(names[1..]);
      assert names == [names[0]] + names[1..];
    }
  }

  lemma {:induction false} JoinLength(names: seq<Name>)
    ensures |Join(Reverse(names))| == |Join(names)|
  {
    if names != [] {
      JoinLength(names[1..]);
      JoinCons(names);
      var r := Reverse(names[1..]) + [names[0]];
      assert r[..|r| - 1] == Reverse(names[1..]);
    }
  }

  lemma {:induction false} UpToName(n: Name, p: Path)
    requires (forall k :: 0 <= k < |n| ==> n[k] != SLASH) && (p == [] || p[0] == SLASH)
    ensures UpToSlash(n + p) == n
  {
    if n == [] {
      assert n + p == p;
    } else {
      assert (n + p)[1..] == n[1..] + p;
      UpToName(n[1..], p);
    }
  }

  /** One component in front. */
  lemma ComponentsCons(n: Name, p: Path)
    requires PathName(n) && (p == [] || p[0] == SLASH)
    ensures Components([SLASH] + n + p) == [n] + Components(p)
    ensures Components(n + p) == [n] + Components(p)
  {
    var s := [SLASH] + n + p;
    assert s[1..] == n + p;
    assert SkipSlashes(s) == SkipSlashes(n + p) == n + p;
    UpToName(n, p);
    assert (n + p)[|n|..] == p;
  }

  lemma {:induction false} JoinAppend(a: seq<Name>, b: seq<Name>)
    ensures Join(a + b) == Join(a) + Join(b)
  {
    if b == [] {
      assert a + b == a;
    } else {
      assert (a + b)[..|a + b| - 1] == a + b[..|b| - 1];
      JoinAppend(a, b[..|b| - 1]);
    }
  }

  lemma JoinCons(names: seq<Name>)
    requires names != []
    ensures Join(names) == [SLASH] + names[0] + Join(names[1..])
  {
    JoinAppend([names[0]], names[1..]);
    assert names == [names[0]] + names[1..];
    assert Join([names[0]]) == [SLASH] + names[0];
  }

  lemma JoinNone()
    ensures Join([]) == [] && Components([]) == []
  {
  }

  /** Splitting a joined path gives its components back. */
  lemma {:induction false} SplitJoin(names: seq<Name>)
    requires forall n :: n in names ==> PathName(n)
    ensures Components(Join(names)) == names
  {
    hide Join, Components, PathName;
    JoinNone();
    if names != [] {
      JoinCons(names);
      SplitJoin(names[1..]);
      if names[1..] != [] {
        JoinCons(names[1..]);
      }
      ComponentsCons(names[0], Join(names[1..]));
    }
  }

  /** The last slash of a joined path stands before its last component. */
  lemma SlashOfJoin(names: seq<Name>, s: Option<nat>)
    requires forall n :: n in names ==> PathName(n)
    requires s.Some? ==> s.value < |Join(names)| && Join(names)[s.value] == SLASH && forall k ::
             s.value < k < |Join(names)| ==> Join(names)[k] != SLASH
    requires s.None? ==> forall k :: 0 <= k < |Join(names)| ==> Join(names)[k] != SLASH
    ensures s.None? <==> names == []
    ensures s.Some? ==> var init, n := names[..|names| - 1], names[|names| - 1];
                        Join(names)[..s.value] == Join(init) && Join(names)[s.value..] == [SLASH] + n
  {
    if names != [] {
      var init, n := names[..|names| - 1], names[|names| - 1];
      var p, at := Join(names), |Join(init)|;
      assert p == Join(init) + [SLASH] + n && p[at] == SLASH;
      assert forall k :: at < k < |p| ==> p[k] == n[k - at - 1];
      assert n in names;
    }
  }

  /** path_parse: the next component, and the rest of the path or NULL at the end. */
  method PathParse(p: Path) returns (name: Name, rest: Option<Path>)
    ensures name == UpToSlash(SkipSlashes(p))
    ensures rest == if |name| == |SkipSlashes(p)| then None else Some(SkipSlashes(p)[|name|..])
    ensures exists from: nat :: NextIs(p, from, name, rest)
  {
    hide SkipSlashes, UpToSlash;
    var from := Skip(p);
    var at := from;
    name := [];
    while at < |p| && p[at] != SLASH
      invariant from <= at <= |p| && name == p[from..at]
      invariant forall k :: from <= k < at ==> p[k] != SLASH
    {
      name := name + [p[at]];
      at := at + 1;
    }
    NameEnds(p, from, at);
    rest := if at == |p| then None else Some(p[at..]);
    assert NextIs(p, from, name, rest);
  }

  /** Slashes up to from, then the name, then a slash and more, or nothing. */
  ghost predicate NextIs(p: Path, from: nat, name: Name, rest: Option<Path>) {
    && from + |name| <= |p| && (forall k :: 0 <= k < from ==> p[k] == SLASH) && (from < |p| ==> p[from] != SLASH)
    && name == p[from..from + |name|] && (forall k :: from <= k < from + |name| ==> p[k] != SLASH)
    && (from + |name| < |p| ==> p[from + |name|] == SLASH)
    && rest == if from + |name| == |p| then None else Some(p[from + |name|..])
  }

  lemma NameEnds(p: Path, from: nat, at: nat)
    requires from <= at <= |p| && (at == |p| || p[at] == SLASH) && forall k :: from <= k < at ==> p[k] != SLASH
    ensures UpToSlash(p[from..]) == p[from..at] && p[from..][at - from..] == p[at..]
  {
    hide UpToSlash;
    UpToName(p[from..at], p[at..]);
    assert p[from..at] + p[at..] == p[from..];
  }

  /** The first loop of path_parse. */
  method Skip(p: Path) returns (at: nat)
    ensures at <= |p| && p[at..] == SkipSlashes(p)
    ensures (forall k :: 0 <= k < at ==> p[k] == SLASH) && (at < |p| ==> p[at] != SLASH)
  {
    at := 0;
    assert p[0..] == p;
    while at < |p| && p[at] == SLASH
      invariant at <= |p| && SkipSlashes(p) == SkipSlashes(p[at..])
      invariant forall k :: 0 <= k < at ==> p[k] == SLASH
    {
      assert p[at..][1..] == p[at + 1..];
      at := at + 1;
    }
  }

  /** Taking components off with path_parse until there is none gives them all. */
  lemma ComponentsByParse(p: Path)
    ensures var n := UpToSlash(SkipSlashes(p));
            Components(p) == if n == [] then [] else [n] + Components(SkipSlashes(p)[|n|..])
    ensures UpToSlash(SkipSlashes(p)) == [] <==> SkipSlashes(p) == []
  {
  }
}
