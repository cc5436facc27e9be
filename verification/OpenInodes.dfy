/** Whole runs of the inode table: whatever is opened, closed, created, written and released, the
    records on disk and the list of open inodes are what a table of files with their users says
    (src/fs/inode.c and its callers in src/fs/file.c, src/fs/dir.c and src/fs/fs.c). */
module OpenInodes {
  import opened Bytes
  import opened Sequences
  import opened InodeTable

  /** The record of each inode in use, and how many users each open one has. */
  datatype Table = Table(files: map<nat, Record>, users: map<nat, nat>)

  datatype Call =
    | Open(no: nat)
    | Close(no: nat)
    | Write(no: nat, size: Word, sectors: seq<Word>)
    | Create(no: nat)
    | Mkdir(no: nat, size: Word, sectors: seq<Word>)
    | Unlink(no: nat)
    | Rmdir(no: nat)

  /** What callers keep to: numbers come from the inode bitmap and the directories; what is released is
      not in use elsewhere. */
  predicate Enabled(a: Table, c: Call) {
    match c
    case Open(no) => no in a.files
    case Close(no) => no in a.users
    case Write(no, _, sectors) => no in a.users && |sectors| == 13
    case Create(no) => no < LOW && no !in a.files
    case Mkdir(no, _, sectors) => no < LOW && no !in a.files && |sectors| == 13
    case Unlink(no) => 0 < no && no in a.files && no !in a.users
    case Rmdir(no) => 0 < no && no in a.files && no !in a.users
  }

  function Next(a: Table, c: Call): Table
    requires Enabled(a, c)
  {
    match c
    case Open(no) => a.(users := a.users[no := if no in a.users then a.users[no] + 1 else 1])
    case Close(no) =>
      if a.users[no] <= 1 then a.(users := a.users - {no}) else a.(users := a.users[no := a.users[no] - 1])
    case Write(no, size, sectors) => a.(files := a.files[no := Record(no % 0x1_0000_0000, size, sectors)])
    case Create(no) => Table(a.files[no := Record(no, 0, seq(13, _ => 0))], a.users[no := 1])
    case Mkdir(no, size, sectors) => a.(files := a.files[no := Record(no, size, sectors)])
    case Unlink(no) => a.(files := a.files - {no})
    case Rmdir(no) => a.(files := a.files - {no})
  }

  ghost predicate Legal(a: Table, calls: seq<Call>)
    decreases |calls|
  {
    calls != [] ==> Enabled(a, calls[0]) && Legal(Next(a, calls[0]), calls[1..])
  }

  ghost function Run(a: Table, calls: seq<Call>): Table
    requires Legal(a, calls)
    decreases |calls|
  {
    if calls == [] then a else Run(Next(a, calls[0]), calls[1..])
  }

  // ---------------------------------------------------------------------------------------
  // The inode table and its list show a table of files.

  /** The records on disk are the files'. */
  ghost predicate Records(t: Inodes, a: Table)
    reads t, t.disk, t.open
  {
    && t.Valid()
    && forall no :: no in a.files ==> no < LOW && OnDisk(t.disk[..], t.lba, no) == a.files[no] && a.files[no].no == no
  }

  /** The list of open inodes has the users. */
  ghost predicate Users(t: Inodes, a: Table)
    reads t, t.open
  {
    && a.users.Keys <= a.files.Keys
    && (forall o :: o in t.open ==> o.no in a.users && a.users[o.no] == o.openCnts)
    && (forall no :: no in a.users ==> exists o :: o in t.open && o.no == no)
  }

  ghost predicate Shows(t: Inodes, a: Table)
    reads t, t.disk, t.open
  {
    Records(t, a) && Users(t, a)
  }

  /** The open inode with a number. */
  method Opened(t: Inodes, no: nat, ghost a: Table) returns (o: OpenInode)
    requires Users(t, a) && no in a.users
    ensures o in t.open && o.no == no && o.openCnts == a.users[no]
  {
    var at := t.Find(no);
    o := t.open[at];
  }

  /** Every call does to disk and list what it does to the table. */
  method Perform(t: Inodes, c: Call, ghost a: Table)
    requires Shows(t, a) && Enabled(a, c)
    modifies t, t.disk, t.open
    ensures Shows(t, Next(a, c))
    ensures forall o :: o in t.open ==> o in old(t.open) || fresh(o)
  {
    hide OnDisk;
    match c {
      case Open(no) => PerformOpen(t, no, a);
      case Close(no) => PerformClose(t, no, a);
      case Write(no, size, sectors) => PerformWrite(t, no, size, sectors, a);
      case Create(no) => PerformCreate(t, no, a);
      case Mkdir(no, size, sectors) => t.WriteNew(no, size, sectors);
      case Unlink(no) => t.InodeRelease(no);
      case Rmdir(no) => t.DirRemove(no);
    }
  }

  method PerformWrite(t: Inodes, no: nat, size: Word, sectors: seq<Word>, ghost a: Table)
    requires Shows(t, a) && Enabled(a, Write(no, size, sectors))
    modifies t.disk, t.open
    ensures Shows(t, Next(a, Write(no, size, sectors))) && t.open == old(t.open)
  {
    hide OnDisk;
    var o := Opened(t, no, a);
    t.ChangeAndSync(o, size, sectors);
  }

  method PerformCreate(t: Inodes, no: nat, ghost a: Table)
    requires Shows(t, a) && Enabled(a, Create(no))
    modifies t, t.disk
    ensures Shows(t, Next(a, Create(no)))
    ensures forall o :: o in t.open ==> o in old(t.open) || fresh(o)
  {
    hide OnDisk;
    var o := t.FileCreate(no);
  }

  method PerformOpen(t: Inodes, no: nat, ghost a: Table)
    requires Shows(t, a) && Enabled(a, Open(no))
    modifies t, t.open
    ensures Shows(t, Next(a, Open(no)))
    ensures forall o :: o in t.open ==> o in old(t.open) || fresh(o)
  {
    hide OnDisk;
    var o := t.InodeOpen(no);
  }

  method PerformClose(t: Inodes, no: nat, ghost a: Table)
    requires Shows(t, a) && Enabled(a, Close(no))
    modifies t, t.open
    ensures Shows(t, Next(a, Close(no)))
    ensures forall o :: o in t.open ==> o in old(t.open) || fresh(o)
  {
    hide OnDisk, Without, OpenInode.AsRecord, NoRepeat;
    var o := Opened(t, no, a);
    t.InodeClose(o);
    assert forall e :: e in t.open ==> (e.no == no <==> e == o);
  }

  /** In every run list and disk agree between calls, each inode is in the list once, with the number of
      its users, and its record is what was last written. */
  method Serve(t: Inodes, calls: seq<Call>, ghost a: Table)
    requires Shows(t, a) && Legal(a, calls)
    modifies t, t.disk, t.open
    ensures Shows(t, Run(a, calls))
  {
    hide Shows, Enabled, Next;
    ghost var b := a;
    var k := 0;
    assert calls[0..] == calls;
    while k < |calls|
      invariant 0 <= k <= |calls| && Shows(t, b) && Legal(b, calls[k..]) && Run(b, calls[k..]) == Run(a, calls)
      invariant forall i :: 0 <= i < |t.open| ==> t.open[i] in old(t.open) || fresh(t.open[i])
    {
      assert calls[k..][0] == calls[k] && calls[k..][1..] == calls[k + 1..];
      ghost var was := t.open;
      assert forall o :: o in was ==> o in old(t.open) || fresh(o);
      Perform(t, calls[k], b);
      assert forall i :: 0 <= i < |t.open| ==> t.open[i] in t.open;
      b := Next(b, calls[k]);
      k := k + 1;
    }
    assert calls[k..] == [];
  }
}
