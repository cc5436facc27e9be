/** wash_path of the shell (src/shell/buildin_cmd.c): a path with its dots folded away, built in place
    in a character buffer. */
module Washing {
  import opened Results
  import opened Bytes
  import opened DirTables
  import opened Paths

  const NUL: Byte := 0

  /** The canonical form of an absolute path. */
  function Canonical(p: Path): (r: Path) {
    Printed(Fold(Components(p)))
  }

  /** Components behind slashes, or the root. */
  function Printed(names: seq<Name>): (r: Path) {
    if names == [] then [SLASH] else Join(names)
  }

  // ---------------------------------------------------------------------------------------
  // Strings in a buffer.

  /** The buffer holds s, ended by NUL. */
  ghost predicate IsString(buf: array<Byte>, s: Path)
    reads buf
  {
    |s| < buf.Length && buf[..|s|] == s && buf[|s|] == NUL && NUL !in s
  }

  lemma SameChars(buf: array<Byte>, s: Path)
    requires IsString(buf, s)
    ensures forall k :: 0 <= k < |s| ==> buf[k] == s[k] && s[k] != NUL
  {
    assert forall k :: 0 <= k < |s| ==> buf[k] == buf[..|s|][k];
  }

  method StrLen(buf: array<Byte>, ghost s: Path) returns (n: nat)
    requires IsString(buf, s)
    ensures n == |s|
  {
    SameChars(buf, s);
    n := 0;
    while buf[n] != NUL
      invariant n <= |s|
      decreases |s| - n
    {
      n := n + 1;
    }
  }

  method StrCat(buf: array<Byte>, ghost s: Path, t: Path)
    requires IsString(buf, s) && |s| + |t| < buf.Length && NUL !in t
    modifies buf
    ensures IsString(buf, s + t)
  {
    var n := StrLen(buf, s);
    var k := 0;
    while k < |t|
      invariant 0 <= k <= |t| && buf[..n + k] == s + t[..k]
    {
      buf[n + k] := t[k];
      k := k + 1;
    }
    buf[n + |t|] := NUL;
    assert t[..|t|] == t;
  }

  /** strrchr of a character that is there. */
  method StrRChr(buf: array<Byte>, ghost s: Path, c: Byte) returns (at: nat)
    requires IsString(buf, s) && c in s && c != NUL
    ensures at < |s| && s[at] == c && forall k :: at < k < |s| ==> s[k] != c
  {
    SameChars(buf, s);
    at := StrLen(buf, s);
    ghost var i :| 0 <= i < |s| && s[i] == c;
    while buf[at] != c
      invariant i <= at <= |s| && forall k :: at < k < |s| ==> s[k] != c
      decreases at
    {
      at := at - 1;
    }
  }

  method Truncate(buf: array<Byte>, ghost s: Path, at: nat)
    requires IsString(buf, s) && at <= |s|
    modifies buf
    ensures IsString(buf, s[..at])
  {
    buf[at] := NUL;
  }

  // ---------------------------------------------------------------------------------------
  // wash_path.

  /** ".." cuts the printed path at its last slash, but keeps the root's. */
  lemma CutLast(names: seq<Name>, at: nat)
    requires forall n :: n in names ==> PathName(n)
    requires at < |Printed(names)| && Printed(names)[at] == SLASH && forall k :: at < k < |Printed(names)| ==>
             Printed(names)[k] != SLASH
    ensures Printed(names)[..if at == 0 then 1 else at] == Printed(Enter(names, DOTDOT))
  {
    if names == [] {
      assert at == 0;
    } else {
      SlashOfJoin(names, Some(at));
      var init := names[..|names| - 1];
      assert init == [] <==> at == 0;
    }
  }

  lemma JoinedIsLong(names: seq<Name>)
    requires forall n :: n in names ==> PathName(n)
    ensures names != [] ==> |Join(names)| >= 2 && Join(names)[0] == SLASH
    ensures Printed(names) == [SLASH] <==> names == []
    ensures SLASH in Printed(names)
  {
    if names != [] {
      assert PathName(names[0]);
      JoinCons(names);
      assert Join(names)[0] == SLASH;
    } else {
      assert [SLASH][0] == SLASH;
    }
  }

  /** A component of the path still to go through; nothing in it is NUL, and it is not empty. */
  ghost predicate Wellformed(name: Name) {
    PathName(name) && NUL !in name
  }

  ghost predicate AllWellformed(names: seq<Name>) {
    forall n :: n in names ==> PathName(n)
  }

  /** One turn of the loop of wash_path: the name is worked into the path. */
  method Append(out: array<Byte>, name: Name, ghost at: seq<Name>)
    requires IsString(out, Printed(at)) && AllWellformed(at) && Wellformed(name)
    requires |Join(at)| + 1 + |name| < out.Length
    modifies out
    ensures IsString(out, Printed(Enter(at, name))) && AllWellformed(Enter(at, name))
    ensures |Join(Enter(at, name))| <= |Join(at)| + 1 + |name|
  {
    hide IsString, Join, PathName;
    JoinedIsLong(at);
    JoinGrows(at, name);
    if name == DOTDOT {
      var slash := StrRChr(out, Printed(at), SLASH);
      CutLast(at, slash);
      Truncate(out, Printed(at), if slash == 0 then 1 else slash);
    } else if name != DOT {
      JoinMore(at, name);
      var first := StartsOnly(out, Printed(at));
      if !first {
        StrCat(out, Printed(at), [SLASH]);
        StrCat(out, Printed(at) + [SLASH], name);
      } else {
        StrCat(out, Printed(at), name);
      }
    }
  }

  lemma JoinGrows(at: seq<Name>, name: Name)
    ensures |Join(Enter(at, name))| <= |Join(at)| + 1 + |name|
    ensures |Printed(at)| == if at == [] then 1 else |Join(at)|
    ensures Join([]) == []
  {
    assert (at + [name])[..|at|] == at;
  }

  /** strcmp(path, "/"). */
  method StartsOnly(out: array<Byte>, ghost s: Path) returns (r: bool)
    requires IsString(out, s)
    ensures r <==> s == [SLASH]
  {
    SameChars(out, s);
    return out[0] == SLASH && out[1] == NUL;
  }

  lemma JoinMore(at: seq<Name>, name: Name)
    requires name != DOT && name != DOTDOT
    ensures Printed(Enter(at, name)) == (if at == [] then [SLASH] else Printed(at) + [SLASH]) + name
  {
    var r := at + [name];
    assert r[..|r| - 1] == at;
    assert Join(r) == Join(at) + [SLASH] + name;
    assert at == [] ==> Join(at) + [SLASH] == [SLASH];
  }

  /** What path_parse leaves to do. */
  function Rest(rest: Option<Path>): Path {
    if rest.None? then [] else rest.value
  }

  /** What path_parse returns, and what is left. */
  lemma Parsed(p: Path, name: Name, rest: Option<Path>)
    requires name == UpToSlash(SkipSlashes(p))
    requires rest == if |name| == |SkipSlashes(p)| then None else Some(SkipSlashes(p)[|name|..])
    requires p == [] || p[0] == SLASH
    requires NUL !in p
    ensures Components(p) == if name == [] then [] else [name] + Components(Rest(rest))
    ensures name != [] ==> Wellformed(name) && 1 + |name| + |Rest(rest)| <= |p|
    ensures NUL !in Rest(rest) && (Rest(rest) == [] || Rest(rest)[0] == SLASH) && |Rest(rest)| <= |p|
  {
    ComponentsByParse(p);
    SkipIsSuffix(p);
    var q := SkipSlashes(p);
    assert q == name + q[|name|..];
    assert Components([]) == [];
  }

  lemma {:induction false} SkipIsSuffix(p: Path)
    ensures forall b :: b in SkipSlashes(p) ==> b in p
    ensures p != [] && p[0] == SLASH ==> |SkipSlashes(p)| < |p|
  {
    if p != [] && p[0] == SLASH {
      SkipIsSuffix(p[1..]);
    }
  }

  /** Where the loop is: seen is folded into the buffer, name is next, and what is in rest. */
  ghost predicate Going(p: Path, seen: seq<Name>, name: Name, rest: Path) {
    && Components(p) == seen + (if name == [] then [] else [name] + Components(rest))
    && AllWellformed(Fold(seen)) && NUL !in rest && (rest == [] || rest[0] == SLASH)
    && (name != [] ==> Wellformed(name) && |Join(Fold(seen))| + 1 + |name| + |rest| <= |p|)
  }

  lemma GoingOn(p: Path, seen: seq<Name>, name: Name, rest: Path, name2: Name, rest2: Path)
    requires Going(p, seen, name, rest) && name != [] && AllWellformed(Fold(seen + [name]))
    requires |Join(Fold(seen + [name]))| <= |Join(Fold(seen))| + 1 + |name|
    requires Components(rest) == if name2 == [] then [] else [name2] + Components(rest2)
    requires name2 != [] ==> Wellformed(name2) && 1 + |name2| + |rest2| <= |rest|
    requires NUL !in rest2 && (rest2 == [] || rest2[0] == SLASH)
    ensures Going(p, seen + [name], name2, rest2)
  {
    hide Components, Fold, Wellformed, AllWellformed, Printed;
    assert seen + ([name] + Components(rest)) == seen + [name] + Components(rest);
  }

  lemma GoingFits(p: Path, seen: seq<Name>, name: Name, rest: Path)
    requires Going(p, seen, name, rest) && name != []
    ensures AllWellformed(Fold(seen)) && Wellformed(name) && |Join(Fold(seen))| + 1 + |name| <= |p|
    ensures NUL !in rest && (rest == [] || rest[0] == SLASH)
  {
  }

  lemma Gone(p: Path, seen: seq<Name>, rest: Path)
    requires Going(p, seen, [], rest)
    ensures Components(p) == seen
  {
  }

  lemma GoingStarts(p: Path, name: Name, rest: Path)
    requires Components(p) == if name == [] then [] else [name] + Components(rest)
    requires name != [] ==> Wellformed(name) && 1 + |name| + |rest| <= |p|
    requires NUL !in rest && (rest == [] || rest[0] == SLASH)
    ensures Going(p, [], name, rest) && Printed(Fold([])) == [SLASH]
  {
    hide Components;
  }

  /** The next component after name: none, if path_parse said that the path is at its end. */
  method Next(rest: Option<Path>) returns (name: Name, more: Option<Path>)
    requires NUL !in Rest(rest) && (Rest(rest) == [] || Rest(rest)[0] == SLASH)
    ensures Components(Rest(rest)) == if name == [] then [] else [name] + Components(Rest(more))
    ensures name != [] ==> Wellformed(name) && 1 + |name| + |Rest(more)| <= |Rest(rest)|
    ensures NUL !in Rest(more) && (Rest(more) == [] || Rest(more)[0] == SLASH) && |Rest(more)| <= |Rest(rest)|
  {
    hide Components, SkipSlashes, UpToSlash, Wellformed;
    JoinNone();
    name, more := [], rest;
    if rest.Some? {
      name, more := PathParse(rest.value);
      Parsed(rest.value, name, more);
    }
  }

  /** wash_path. It halts iff the path is not absolute; else the buffer holds the canonical path. Callers
      pass names of at most 15 bytes and a buffer with room for the path. */
  method WashPath(p: Path, out: array<Byte>) returns (ok: bool)
    requires NUL !in p && out.Length > |p|
    requires forall n :: n in Components(p) ==> |n| <= 15
    modifies out
    ensures ok <==> p != [] && p[0] == SLASH
    ensures ok ==> IsString(out, Canonical(p))
  {
    hide IsString, Components, Fold, Printed, Wellformed, AllWellformed, Going;
    if p == [] || p[0] != SLASH {
      return false;
    }
    var name, rest := Next(Some(p));
    GoingStarts(p, name, Rest(rest));
    SetRoot(out);
    ghost var seen: seq<Name> := [];
    while name != []
      invariant IsString(out, Printed(Fold(seen))) && Going(p, seen, name, Rest(rest))
      decreases |Rest(rest)| + |name|
    {
      GoingFits(p, seen, name, Rest(rest));
      Append(out, name, Fold(seen));
      FoldMore(seen, name);
      var name2, rest2 := Next(rest);
      GoingOn(p, seen, name, Rest(rest), name2, Rest(rest2));
      seen := seen + [name];
      name, rest := name2, rest2;
    }
    Gone(p, seen, Rest(rest));
    return true;
  }

  method SetRoot(out: array<Byte>)
    requires out.Length >= 2
    modifies out
    ensures IsString(out, [SLASH])
  {
    out[0] := SLASH;
    out[1] := NUL;
  }

  lemma FoldMore(names: seq<Name>, n: Name)
    ensures Fold(names + [n]) == Enter(Fold(names), n)
  {
    assert (names + [n])[..|names|] == names;
  }

  // ---------------------------------------------------------------------------------------
  // What washing means.

  lemma FoldNames(p: Path)
    ensures forall n :: n in Fold(Components(p)) ==> PathName(n) && Plain(n)
  {
    FoldIsPlain(Components(p));
  }

  /** The components of a washed path are the folded ones: none is "." or "..", and none is empty, so
      there is no double slash. */
  lemma WashedComponents(p: Path)
    ensures Components(Canonical(p)) == Fold(Components(p))
    ensures forall n :: n in Components(Canonical(p)) ==> Plain(n)
    ensures Canonical(p) == Printed(Components(Canonical(p)))
  {
    hide Fold, Join, Components;
    FoldNames(p);
    SplitJoin(Fold(Components(p)));
    RootHasNone();
  }

  lemma RootHasNone()
    ensures Components([SLASH]) == []
  {
    assert [SLASH][1..] == [];
  }

  /** Washing a washed path changes nothing. */
  lemma WashTwice(p: Path)
    ensures Canonical(Canonical(p)) == Canonical(p)
  {
    hide Fold, Join, Components;
    WashedComponents(p);
    FoldPlain(Components(Canonical(p)));
  }
}
