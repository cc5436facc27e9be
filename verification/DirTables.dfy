/** A directory as the table of its 252 entry places: 12 blocks of 21 entries of 24 bytes. */
module DirTables {
  import opened Results
  import opened Bytes

  const REC: nat := 24        // bytes of an entry
  const PER_BLOCK: nat := 21  // entries in a sector
  const BLOCKS: nat := 12     // direct blocks
  const PLACES: nat := 252

  const FT_UNKNOWN: Word := 0
  const FT_REGULAR: Word := 1
  const FT_DIRECTORY: Word := 2

  /** 16 bytes of name, padded with zeros, then i_no and f_type. */
  type Rec = r: seq<Byte> | |r| == REC witness seq(REC, _ => 0)
  type Name = seq<Byte>

  const DOT: Name := [46]
  const DOTDOT: Name := [46, 46]
  const SLASH: Byte := 47

  function ZeroRec(): Rec {
    seq(REC, _ => 0)
  }

  function Ino(r: Rec): Word {
    BytesWord(r[16..20])
  }

  function Type(r: Rec): Word {
    BytesWord(r[20..24])
  }

  predicate Live(r: Rec) {
    Type(r) != FT_UNKNOWN
  }

  /** Names the system works with: 1 to 15 bytes, no zero byte, no slash. */
  predicate GoodName(name: Name) {
    1 <= |name| <= 15 && forall k :: 0 <= k < |name| ==> name[k] != 0 && name[k] != SLASH
  }

  /** strcmp(r.filename, name) == 0, for a name without zero bytes. */
  predicate NameIs(r: Rec, name: Name)
    requires |name| <= 15
  {
    r[..|name|] == name && r[|name|] == 0
  }

  /** create_dir_entry on a zeroed entry. */
  function MakeRec(name: Name, ino: Word, kind: Word): (r: Rec)
    requires |name| <= 16
  {
    name + seq(16 - |name|, _ => 0) + WordBytes(ino) + WordBytes(kind)
  }

  lemma MakeRecFields(name: Name, ino: Word, kind: Word)
    requires |name| <= 15
    ensures var r := MakeRec(name, ino, kind); Ino(r) == ino && Type(r) == kind && NameIs(r, name)
  {
    WordRoundTrip(ino);
    WordRoundTrip(kind);
    var r := MakeRec(name, ino, kind);
    assert r[16..20] == WordBytes(ino);
    assert r[20..24] == WordBytes(kind);
  }

  lemma ZeroIsDead()
    ensures !Live(ZeroRec()) && ZeroRec()[0] == 0 && Ino(ZeroRec()) == 0
  {
    assert ZeroRec()[20..24] == [0, 0, 0, 0];
    assert ZeroRec()[16..20] == [0, 0, 0, 0];
  }

  /** The name stored in an entry: the bytes before the first zero. */
  function NameOf(r: Rec): (name: Name)
    ensures |name| <= 16
  {
    Prefix(r[..16])
  }

  function Prefix(s: seq<Byte>): (name: Name)
    ensures |name| <= |s| && name == s[..|name|]
    ensures forall k :: 0 <= k < |name| ==> name[k] != 0
    ensures |name| < |s| ==> s[|name|] == 0
  {
    if s == [] || s[0] == 0 then [] else [s[0]] + Prefix(s[1..])
  }

  /** The comparison finds exactly the entries that store the name. */
  lemma NameIsNameOf(r: Rec, name: Name)
    requires |name| <= 15 && forall k :: 0 <= k < |name| ==> name[k] != 0
    ensures NameIs(r, name) <==> NameOf(r) == name
  {
    var s := r[..16];
    assert s[..|name|] == r[..|name|] && s[|name|] == r[|name|];
    if NameIs(r, name) {
      PrefixIs(s, name);
    }
  }

  lemma {:induction false} PrefixIs(s: seq<Byte>, name: Name)
    requires |name| < |s| && s[..|name|] == name && s[|name|] == 0 && forall k :: 0 <= k < |name| ==> name[k] != 0
    ensures Prefix(s) == name
  {
    if name != [] {
      assert s[0] == name[0];
      assert s[1..][..|name| - 1] == name[1..];
      PrefixIs(s[1..], name[1..]);
    }
  }

  // ---------------------------------------------------------------------------------------
  // Tables.

  type Table = seq<Rec>

  /** Places of block b. */
  predicate InBlock(p: int, b: int) {
    PER_BLOCK * b <= p < PER_BLOCK * b + PER_BLOCK
  }

  /** What the directory operations keep. "." and ".." are the first two entries; a dead place is
      all zeros; no name and, dots aside, no inode is listed twice. */
  ghost predicate TableOk(t: Table, self: Word) {
    && |t| == PLACES
    && Live(t[0]) && NameIs(t[0], DOT) && Ino(t[0]) == self
    && Live(t[1]) && NameIs(t[1], DOTDOT)
    && (forall p :: 0 <= p < PLACES && !Live(t[p]) ==> t[p] == ZeroRec())
    && (forall p :: 0 <= p < PLACES && Live(t[p]) ==> GoodName(NameOf(t[p])))
    && (forall p, q :: 0 <= p < q < PLACES && Live(t[p]) && Live(t[q]) ==> NameOf(t[p]) != NameOf(t[q]))
    && (forall p, q :: 2 <= p < q < PLACES && Live(t[p]) && Live(t[q]) ==> Ino(t[p]) != Ino(t[q]))
  }

  datatype Item = Item(ino: Word, kind: Word)

  /** The meaning of a directory: a finite map from names. */
  ghost function Listing(t: Table): map<Name, Item> {
    map n | n in (set p | 0 <= p < |t| && Live(t[p]) :: NameOf(t[p])) ::
      var r := t[FirstNamed(t, n)]; Item(Ino(r), Type(r))
  }

  ghost function FirstNamed(t: Table, n: Name): (p: nat)
    requires exists q :: 0 <= q < |t| && Live(t[q]) && NameOf(t[q]) == n
    ensures p < |t| && Live(t[p]) && NameOf(t[p]) == n
  {
    var q :| 0 <= q < |t| && Live(t[q]) && NameOf(t[q]) == n;
    q
  }

  /** In a good table the map says what each live entry says. */
  lemma ListingAt(t: Table, self: Word, p: nat)
    requires TableOk(t, self) && p < PLACES && Live(t[p])
    ensures NameOf(t[p]) in Listing(t) && Listing(t)[NameOf(t[p])] == Item(Ino(t[p]), Type(t[p]))
  {
    var q := FirstNamed(t, NameOf(t[p]));
    assert p == q;
  }

  lemma ListingFrom(t: Table, n: Name) returns (p: nat)
    requires n in Listing(t)
    ensures p < |t| && Live(t[p]) && NameOf(t[p]) == n
  {
    p := FirstNamed(t, n);
  }

  lemma ListedIff(t: Table, n: Name)
    ensures n in Listing(t) <==> exists p :: 0 <= p < |t| && Live(t[p]) && NameOf(t[p]) == n
  {
  }

  // ---------------------------------------------------------------------------------------
  // Counting live entries.

  function LiveCount(t: Table): nat {
    if t == [] then 0 else LiveCount(t[..|t| - 1]) + if Live(t[|t| - 1]) then 1 else 0
  }

  /** The live entries in order. */
  function LiveList(t: Table): (r: seq<Rec>)
    ensures |r| == LiveCount(t)
    ensures forall k :: 0 <= k < |r| ==> Live(r[k])
  {
    if t == [] then [] else LiveList(t[..|t| - 1]) + if Live(t[|t| - 1]) then [t[|t| - 1]] else []
  }

  lemma {:induction false} CountAfter(t: Table, p: nat, r: Rec)
    requires p < |t|
    ensures LiveCount(t[p := r]) == LiveCount(t) - (if Live(t[p]) then 1 else 0) + if Live(r) then 1 else 0
  {
    var n := |t| - 1;
    if p < n {
      CountAfter(t[..n], p, r);
      assert t[p := r][..n] == t[..n][p := r];
    } else {
      assert t[p := r][..n] == t[..n];
    }
  }

  /** One more place at a time, an entry joins the list iff it is live. */
  lemma CountPrefix(t: Table, p: nat)
    requires p < |t|
    ensures LiveCount(t[..p + 1]) == LiveCount(t[..p]) + if Live(t[p]) then 1 else 0
    ensures LiveList(t[..p + 1]) == LiveList(t[..p]) + if Live(t[p]) then [t[p]] else []
  {
    assert t[..p + 1][..p] == t[..p];
  }

  lemma {:induction false} ListPrefix(t: Table, p: nat)
    requires p <= |t|
    ensures LiveCount(t[..p]) <= LiveCount(t) && LiveList(t[..p]) == LiveList(t)[..LiveCount(t[..p])]
    decreases |t| - p
  {
    if p < |t| {
      CountPrefix(t, p);
      ListPrefix(t, p + 1);
      var k := LiveCount(t[..p]);
      assert LiveList(t[..p]) == LiveList(t[..p + 1])[..k];
      assert LiveList(t)[..LiveCount(t[..p + 1])][..k] == LiveList(t)[..k];
    } else {
      assert t[..p] == t;
    }
  }

  // ---------------------------------------------------------------------------------------
  // Insert and delete.

  /** The first dead place. */
  function FirstDead(t: Table): (r: Option<nat>)
    ensures r.Some? ==> r.value < |t| && !Live(t[r.value]) && forall p :: 0 <= p < r.value ==> Live(t[p])
    ensures r.None? ==> forall p :: 0 <= p < |t| ==> Live(t[p])
  {
    DeadFrom(t, 0)
  }

  function DeadFrom(t: Table, i: nat): (r: Option<nat>)
    requires i <= |t|
    ensures r.Some? ==> i <= r.value < |t| && !Live(t[r.value]) && forall p :: i <= p < r.value ==> Live(t[p])
    ensures r.None? ==> forall p :: i <= p < |t| ==> Live(t[p])
    decreases |t| - i
  {
    if i == |t| then None else if !Live(t[i]) then Some(i) else DeadFrom(t, i + 1)
  }

  /** A new entry in a dead place adds its name to the map. */
  lemma InsertMaps(t: Table, self: Word, p: nat, name: Name, ino: Word, kind: Word)
    requires TableOk(t, self) && p < PLACES && !Live(t[p]) && GoodName(name) && name !in Listing(t)
             && kind != FT_UNKNOWN
    requires forall q :: 2 <= q < PLACES && Live(t[q]) ==> Ino(t[q]) != ino
    ensures var u := t[p := MakeRec(name, ino, kind)];
            TableOk(u, self) && Listing(u) == Listing(t)[name := Item(ino, kind)] && LiveCount(u) == LiveCount(t) + 1
  {
    var r := MakeRec(name, ino, kind);
    var u := t[p := r];
    MakeRecFields(name, ino, kind);
    NameIsNameOf(r, name);
    CountAfter(t, p, r);
    InsertOk(t, self, p, name, r);
    UpdateListing(t, u, self, p);
  }

  lemma InsertOk(t: Table, self: Word, p: nat, name: Name, r: Rec)
    requires TableOk(t, self) && p < PLACES && !Live(t[p]) && Live(r) && NameOf(r) == name && GoodName(name)
             && name !in Listing(t)
    requires forall q :: 2 <= q < PLACES && Live(t[q]) ==> Ino(t[q]) != Ino(r)
    ensures TableOk(t[p := r], self)
  {
    forall q | 0 <= q < PLACES && Live(t[q]) ensures NameOf(t[q]) != name {
      ListingAt(t, self, q);
    }
  }

  /** Tables that differ in place p, dead before, list the same but for that entry. */
  lemma UpdateListing(t: Table, u: Table, self: Word, p: nat)
    requires TableOk(t, self) && TableOk(u, self) && |t| == |u| == PLACES && p < PLACES
    requires u == t[p := u[p]] && !Live(t[p]) && Live(u[p])
    ensures Listing(u) == Listing(t)[NameOf(u[p]) := Item(Ino(u[p]), Type(u[p]))]
  {
    hide TableOk, Listing, NameOf, Ino, Type;
    var m := Listing(t)[NameOf(u[p]) := Item(Ino(u[p]), Type(u[p]))];
    forall n ensures n in Listing(u) <==> n in m {
      if n in Listing(u) {
        var q := ListingFrom(u, n);
        if q != p {
          ListingAt(t, self, q);
        }
      }
      if n in m && n != NameOf(u[p]) {
        var q := ListingFrom(t, n);
        ListingAt(u, self, q);
      }
      ListingAt(u, self, p);
    }
    forall n | n in Listing(u) ensures Listing(u)[n] == m[n] {
      var q := ListingFrom(u, n);
      ListingAt(u, self, q);
      ListingAt(u, self, p);
      if q != p {
        ListingAt(t, self, q);
      }
    }
  }

  /** Clearing a live entry that is not a dot takes its name out of the map. */
  lemma DeleteMaps(t: Table, self: Word, p: nat)
    requires TableOk(t, self) && 2 <= p < PLACES && Live(t[p])
    ensures var u := t[p := ZeroRec()];
            TableOk(u, self) && Listing(u) == Listing(t) - {NameOf(t[p])} && LiveCount(u) + 1 == LiveCount(t)
  {
    var u := t[p := ZeroRec()];
    CountAfter(t, p, ZeroRec());
    DeleteOk(t, self, p);
    Unlisted(t, self, p);
    hide TableOk, Listing, NameOf, LiveCount, Live, ZeroRec;
    UpdateListing(u, t, self, p);
    MapMinus(Listing(u), Listing(t), NameOf(t[p]), Item(Ino(t[p]), Type(t[p])));
  }

  /** Without the entry its name is not listed. */
  lemma Unlisted(t: Table, self: Word, p: nat)
    requires TableOk(t, self) && 2 <= p < PLACES && Live(t[p])
    ensures NameOf(t[p]) !in Listing(t[p := ZeroRec()])
  {
    hide Listing, NameOf, Ino, Type, ZeroRec, NameIs, GoodName;
    ZeroIsDead();
    ListedIff(t[p := ZeroRec()], NameOf(t[p]));
  }

  lemma MapMinus(m: map<Name, Item>, n: map<Name, Item>, k: Name, x: Item)
    requires n == m[k := x] && k !in m
    ensures m == n - {k}
  {
  }

  lemma DeleteOk(t: Table, self: Word, p: nat)
    requires TableOk(t, self) && 2 <= p < PLACES && Live(t[p])
    ensures TableOk(t[p := ZeroRec()], self) && |t| == PLACES && !Live(ZeroRec())
  {
    ZeroIsDead();
    hide NameIs, NameOf, GoodName, Ino, Type, ZeroRec;
  }
}
