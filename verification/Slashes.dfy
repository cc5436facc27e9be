/** What the components of a path are: any number of slashes before, between and behind the names changes nothing
    (path_parse in src/fs/fs.c). */
module Slashes {
  import opened DirTables
  import opened Paths

  function Slash(n: nat): (p: Path)
    ensures |p| == n && forall k :: 0 <= k < n ==> p[k] == SLASH
  {
    seq(n, _ => SLASH)
  }

  /** gaps[k] slashes before name k, the last number of slashes behind the last name. */
  function Spread(gaps: seq<nat>, names: seq<Name>): Path
    requires |gaps| == |names| + 1
    decreases |names|
  {
    if names == [] then Slash(gaps[0]) else Slash(gaps[0]) + names[0] + Spread(gaps[1..], names[1..])
  }

  /** The names are not empty and have no slash, and there is a slash between any two. */
  ghost predicate Apart(gaps: seq<nat>, names: seq<Name>) {
    && |gaps| == |names| + 1 && (forall n :: n in names ==> PathName(n))
    && forall k :: 0 < k < |names| ==> gaps[k] > 0
  }

  /** A slash in front of a path that is empty or begins with one changes nothing. */
  lemma MoreSlashes(p: Path)
    requires p == [] || p[0] == SLASH
    ensures Components([SLASH] + p) == Components(p)
  {
    assert ([SLASH] + p)[1..] == p;
  }

  lemma {:induction false} OnlySlashes(n: nat)
    ensures Components(Slash(n)) == []
  {
    if n == 0 {
      assert Slash(0) == [];
    } else {
      OnlySlashes(n - 1);
      MoreSlashes(Slash(n - 1));
      assert Slash(n) == [SLASH] + Slash(n - 1);
    }
  }

  lemma {:induction false} SlashesBefore(n: nat, name: Name, p: Path)
    requires PathName(name) && (p == [] || p[0] == SLASH)
    ensures Components(Slash(n) + name + p) == [name] + Components(p)
  {
    if n == 0 {
      assert Slash(0) + name + p == name + p;
      ComponentsCons(name, p);
    } else if n == 1 {
      assert Slash(1) + name + p == [SLASH] + name + p;
      ComponentsCons(name, p);
    } else {
      SlashesBefore(n - 1, name, p);
      MoreSlashes(Slash(n - 1) + name + p);
      assert Slash(n) + name + p == [SLASH] + (Slash(n - 1) + name + p);
    }
  }

  /** However the slashes are spread, the names are the components. */
  lemma {:induction false} SpreadComponents(gaps: seq<nat>, names: seq<Name>)
    requires Apart(gaps, names)
    ensures Components(Spread(gaps, names)) == names
    decreases |names|
  {
    hide Components;
    if names == [] {
      OnlySlashes(gaps[0]);
    } else {
      var more, rest := gaps[1..], names[1..];
      var p := Spread(more, rest);
      assert forall k :: 0 < k < |rest| ==> more[k] == gaps[k + 1];
      SpreadComponents(more, rest);
      assert PathName(names[0]) && (p == [] || p[0] == SLASH) by {
        assert names[0] in names;
        if rest != [] {
          assert gaps[1] > 0 && p[0] == Slash(more[0])[0];
        }
      }
      SlashesBefore(gaps[0], names[0], p);
      assert names == [names[0]] + rest;
    }
  }

  /** And every path is its components with slashes spread among them. */
  lemma {:induction false} PathIsSpread(p: Path) returns (gaps: seq<nat>)
    ensures Apart(gaps, Components(p)) && p == Spread(gaps, Components(p))
    decreases |p|
  {
    hide Apart, Spread, SkipSlashes, UpToSlash, Components;
    var n, q := LeadingSlashes(p);
    ComponentsByParse(p);
    if q == [] {
      gaps := [n];
      NoNames(n);
      assert p == Slash(n) && Components(p) == [];
    } else {
      var name := UpToSlash(q);
      var rest := q[|name|..];
      var more := PathIsSpread(rest);
      gaps := [n] + more;
      assert q == name + rest;
      SpreadMore(n, name, rest, more, Components(rest));
    }
  }

  lemma NoNames(n: nat)
    ensures Apart([n], []) && Spread([n], []) == Slash(n)
  {
  }

  lemma SpreadMore(n: nat, name: Name, rest: Path, gaps: seq<nat>, names: seq<Name>)
    requires PathName(name) && (rest == [] || rest[0] == SLASH) && Apart(gaps, names) && rest == Spread(gaps, names)
    ensures Apart([n] + gaps, [name] + names) && Slash(n) + (name + rest) == Spread([n] + gaps, [name] + names)
  {
    FirstGap(rest, gaps, names);
    assert ([n] + gaps)[1..] == gaps && ([name] + names)[1..] == names;
    assert Slash(n) + (name + rest) == Slash(n) + name + rest;
  }

  lemma FirstGap(p: Path, gaps: seq<nat>, names: seq<Name>)
    requires Apart(gaps, names) && p == Spread(gaps, names)
    ensures names != [] && gaps[0] == 0 ==> p != [] && p[0] != SLASH
  {
    if names != [] && gaps[0] == 0 {
      assert names[0] in names;
      assert p[0] == names[0][0];
    }
  }

  lemma {:induction false} LeadingSlashes(p: Path) returns (n: nat, q: Path)
    ensures p == Slash(n) + q && q == SkipSlashes(p)
  {
    if p != [] && p[0] == SLASH {
      n, q := LeadingSlashes(p[1..]);
      n := n + 1;
      assert p == [SLASH] + p[1..];
      assert Slash(n) == [SLASH] + Slash(n - 1);
    } else {
      n, q := 0, p;
    }
  }

  /** The components of a path are the names, and no others, that it consists of but for slashes. */
  lemma ComponentsIff(p: Path, names: seq<Name>)
    ensures Components(p) == names <==> exists gaps :: Apart(gaps, names) && p == Spread(gaps, names)
  {
    hide Components, Spread;
    var gaps := PathIsSpread(p);
    if gaps' :| Apart(gaps', names) && p == Spread(gaps', names) {
      SpreadComponents(gaps', names);
    }
  }

  /** A joined path has one slash before each name and none behind. */
  lemma {:induction false} JoinIsSpread(names: seq<Name>)
    ensures Join(names) == Spread(seq(|names|, _ => 1) + [0], names)
  {
    var gaps: seq<nat> := seq(|names|, _ => 1) + [0];
    if names != [] {
      JoinIsSpread(names[1..]);
      JoinCons(names);
      assert gaps[1..] == seq(|names[1..]|, _ => 1) + [0];
      assert Slash(1) == [SLASH];
    } else {
      assert gaps == [0] && Slash(0) == [];
    }
  }
}
