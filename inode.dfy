/**
 * Inode records: the inode number allocator, the `Inode` record with its
 * ordered children list, the projection of its attributes into a
 * `FileAttr`, the synthetic root, and the conversion of a decoded remote
 * tree entry into inode attributes.
 */
module Inodes {
  import opened Wrappers
  import Decimal
  import Paths
  import opened Ints

  /** The inode number the kernel gives the mount's root directory. */
  const FUSE_ROOT_ID: u64 := 1
  const BLOCK_SIZE: u32 := 4096
  const RDEV: u32 := 0
  const FLAGS: u32 := 0
  const DEFAULT_HARD_LINKS: u32 := 1
  /** 0o644 */
  const DEFAULT_FILE_PERMISSIONS: u16 := 420
  /** 0o755 */
  const DEFAULT_DIR_PERMISSIONS: u16 := 493

  /** A `SystemTime`, as whole seconds after the Unix epoch. */
  type Seconds = nat

  /** The kind of a remote tree entry. */
  datatype ContentType = File | Dir

  /** The JSON tags of `ContentType`: `"file"` and `"directory"`; any other tag does not decode. */
  function ContentTypeFromTag(tag: string): (r: Option<ContentType>)
    ensures r == Some(File) <==> tag == "file"
    ensures r == Some(Dir) <==> tag == "directory"
  {
    if tag == "file" then Some(File)
    else if tag == "directory" then Some(Dir)
    else None
  }

  /** The kinds of file the kernel interface knows. */
  datatype FileType = NamedPipe | CharDevice | BlockDevice | Directory | RegularFile | Symlink | Socket

  /** `From<&ContentType> for FileType`. */
  function FileTypeOf(c: ContentType): (k: FileType)
    ensures k == Directory <==> c == Dir
    ensures k == RegularFile <==> c == File
  {
    match c
    case Dir => Directory
    case File => RegularFile
  }

  /** One decoded entry of a tree listing. */
  datatype Object = Object(
    id: string,
    name: string,
    path: string,
    contentType: ContentType,
    commitDate: string,
    underRepo: bool,
    commitMsg: string,
    commitId: string)

  datatype InodeAttributes = InodeAttributes(
    id: string,
    size: u64,
    name: string,
    kind: ContentType,
    path: string,
    mtime: Seconds,
    ctime: Seconds,
    permissions: u16)

  /** The stat-like record handed to the kernel interface. */
  datatype FileAttr = FileAttr(
    ino: u64,
    size: u64,
    blocks: u64,
    atime: Seconds,
    mtime: Seconds,
    ctime: Seconds,
    crtime: Seconds,
    kind: FileType,
    perm: u16,
    nlink: u32,
    uid: u32,
    gid: u32,
    rdev: u32,
    blksize: u32,
    flags: u32)

  datatype ConversionError = CommitDateNotNumeric

  /** The default permission bits of an entry of the given kind. */
  function DefaultPermissions(kind: ContentType): (perm: u16)
    ensures perm == DEFAULT_DIR_PERMISSIONS <==> kind == Dir
    ensures perm == DEFAULT_FILE_PERMISSIONS <==> kind == File
  {
    match kind
    case Dir => DEFAULT_DIR_PERMISSIONS
    case File => DEFAULT_FILE_PERMISSIONS
  }

  /**
   * `From<Object> for InodeAttributes`. The `unwrap` of the parsed commit
   * date is the error case.
   */
  function AttributesFromObject(o: Object): (r: Result<InodeAttributes, ConversionError>)
    ensures r.Ok? <==> Decimal.ParseU64(o.commitDate).Some?
    ensures r.Err? ==> r.error == CommitDateNotNumeric
    ensures r.Ok? ==> r.value.mtime == r.value.ctime == Decimal.ParseU64(o.commitDate).value
    ensures r.Ok? ==> r.value.size == 0 && r.value.kind == o.contentType
    ensures r.Ok? ==> r.value.id == o.id && r.value.name == o.name
    ensures r.Ok? ==> r.value.path == Paths.SkipComponents(o.path, 2)
    ensures r.Ok? ==> r.value.permissions == (if o.contentType == Dir then 493 else 420)
  {
    match Decimal.ParseU64(o.commitDate)
    case None => Err(CommitDateNotNumeric)
    case Some(secs) =>
      Ok(InodeAttributes(
        id := o.id,
        size := 0,
        name := o.name,
        kind := o.contentType,
        path := Paths.SkipComponents(o.path, 2),
        mtime := secs,
        ctime := secs,
        permissions := DefaultPermissions(o.contentType)))
  }

  /**
   * The attributes of the synthetic root. The clock is read once for the
   * modification time and once more for the change time, so the two
   * readings are separate parameters and may differ.
   */
  function RootAttributes(fsName: string, mtimeNow: Seconds, ctimeNow: Seconds): (a: InodeAttributes)
    ensures a.kind == Dir && a.size == BLOCK_SIZE && a.permissions == DEFAULT_DIR_PERMISSIONS
    ensures a.id == fsName && a.name == fsName && a.path == ""
    ensures a.mtime == mtimeNow && a.ctime == ctimeNow
  {
    InodeAttributes(fsName, BLOCK_SIZE, fsName, Dir, "", mtimeNow, ctimeNow, DEFAULT_DIR_PERMISSIONS)
  }

  /** The inode number handed out by the allocator's `k`-th call (counting from 0). */
  function IdAt(k: nat): (ino: u64)
    ensures k < U64_LIMIT - 2 ==> ino == k + 2
    ensures U64_LIMIT - 2 <= k < 2 * U64_LIMIT - 2 ==> ino == k + 2 - U64_LIMIT
  {
    (FUSE_ROOT_ID + 1 + k) % U64_LIMIT
  }

  /**
   * `INO_ALLOCATOR` and `alloc_ino`: a counter that starts one above the
   * root id; `fetch_add(1)` returns the current value and then increments
   * it, wrapping around at 2^64.
   */
  class InoAllocator {
    var next: u64
    /** How many numbers have been handed out. */
    ghost var calls: nat

    ghost predicate Valid()
      reads this
    {
      next == IdAt(calls)
    }

    constructor ()
      ensures Valid() && calls == 0 && next == FUSE_ROOT_ID + 1
    {
      next := FUSE_ROOT_ID + 1;
      calls := 0;
    }

    method Alloc() returns (ino: u64)
      requires Valid()
      modifies this
      ensures Valid() && calls == old(calls) + 1
      ensures ino == old(next) && ino == IdAt(old(calls))
      ensures next == (old(next) + 1) % U64_LIMIT
    {
      ino := next;
      next := if next == U64_LIMIT - 1 then 0 else next + 1;
      calls := calls + 1;
      IdAtSucc(old(calls));
    }
  }

  lemma IdAtSucc(k: nat)
    ensures IdAt(k + 1) == (IdAt(k) + 1) % U64_LIMIT
  {
  }

  /**
   * Until the counter wraps, numbers are handed out in strictly increasing
   * order and all lie above the root id.
   */
  lemma IdsIncrease(j: nat, k: nat)
    requires j < k < U64_LIMIT - 2
    ensures FUSE_ROOT_ID < IdAt(j) < IdAt(k)
  {
  }

  /**
   * The counter wraps on its call number 2^64 - 2 (counting from 0), which
   * hands out 0, and the next call hands out the root id.
   */
  lemma RootIdAfterWrap(k: nat)
    requires k <= U64_LIMIT - 1
    ensures IdAt(k) == FUSE_ROOT_ID <==> k == U64_LIMIT - 1
    ensures IdAt(k) == 0 <==> k == U64_LIMIT - 2
  {
  }

  /** The list with its first occurrence of `x` removed (unchanged when there is none). */
  function RemoveFirst(s: seq<u64>, x: u64): (r: seq<u64>)
    ensures x !in s ==> r == s
    ensures x in s ==> |r| == |s| - 1
    ensures forall y :: y in r ==> y in s
  {
    if |s| == 0 then []
    else if s[0] == x then s[1..]
    else [s[0]] + RemoveFirst(s[1..], x)
  }

  /** Removing the first occurrence at index `i` splices the list around `i`. */
  lemma {:induction false} RemoveFirstAt(s: seq<u64>, x: u64, i: nat)
    requires i < |s| && s[i] == x
    requires forall j :: 0 <= j < i ==> s[j] != x
    ensures RemoveFirst(s, x) == s[..i] + s[i + 1..]
  {
    if i > 0 {
      RemoveFirstAt(s[1..], x, i - 1);
      assert s[1..][..i - 1] == s[1..i];
      assert s[1..][i..] == s[i + 1..];
      assert [s[0]] + s[1..i] == s[..i];
    }
  }

  /** Removing a present element drops exactly one copy of it and nothing else. */
  lemma {:induction false} RemoveFirstCounts(s: seq<u64>, x: u64)
    requires x in s
    ensures |RemoveFirst(s, x)| == |s| - 1
    ensures multiset(RemoveFirst(s, x)) == multiset(s) - multiset{x}
  {
    if s[0] != x {
      RemoveFirstCounts(s[1..], x);
      assert s == [s[0]] + s[1..];
    } else {
      assert s == [x] + s[1..];
    }
  }

  /** Appending a new child and then removing it restores the list. */
  lemma {:induction false} RemoveUndoesInsert(s: seq<u64>, x: u64)
    requires x !in s
    ensures RemoveFirst(s + [x], x) == s
  {
    if |s| > 0 {
      assert (s + [x])[1..] == s[1..] + [x];
      RemoveUndoesInsert(s[1..], x);
    }
  }

  /** With an earlier copy present, the appended child survives and an earlier one goes. */
  lemma {:induction false} RemoveAfterDuplicateInsert(s: seq<u64>, x: u64)
    requires x in s
    ensures RemoveFirst(s + [x], x) == RemoveFirst(s, x) + [x]
  {
    if s[0] != x {
      assert (s + [x])[1..] == s[1..] + [x];
      RemoveAfterDuplicateInsert(s[1..], x);
    } else {
      assert (s + [x])[1..] == s[1..] + [x];
    }
  }

  /** An inode: its number, its parent's, its children in insertion order, its attributes and cached content. */
  class Inode {
    var ino: u64
    var parentIno: u64
    var childrenIno: seq<u64>
    var attr: InodeAttributes
    var content: Option<string>

    /**
     * `Inode::new`: a freshly allocated number, no children, no content.
     * Only the allocator changes; no parent's children list is touched.
     */
    constructor (parentIno: u64, attr: InodeAttributes, allocator: InoAllocator)
      requires allocator.Valid()
      modifies allocator
      ensures allocator.Valid() && allocator.calls == old(allocator.calls) + 1
      ensures ino == old(allocator.next) && ino == IdAt(old(allocator.calls))
      ensures this.parentIno == parentIno && this.attr == attr
      ensures childrenIno == [] && content == None
    {
      var n := allocator.Alloc();
      ino := n;
      this.parentIno := parentIno;
      childrenIno := [];
      this.attr := attr;
      content := None;
    }

    /**
     * `Inode::root_node`: the synthetic root, its own parent; `mtimeNow`
     * and `ctimeNow` stand for the two readings of the clock.
     */
    constructor Root(fsName: string, mtimeNow: Seconds, ctimeNow: Seconds)
      ensures ino == FUSE_ROOT_ID && parentIno == FUSE_ROOT_ID
      ensures attr == RootAttributes(fsName, mtimeNow, ctimeNow)
      ensures childrenIno == [] && content == None
    {
      ino := FUSE_ROOT_ID;
      parentIno := FUSE_ROOT_ID;
      childrenIno := [];
      attr := RootAttributes(fsName, mtimeNow, ctimeNow);
      content := None;
    }

    /** `insert_child`: append at the end; nothing else changes. */
    method InsertChild(child: u64)
      modifies this
      ensures childrenIno == old(childrenIno) + [child]
      ensures ino == old(ino) && parentIno == old(parentIno)
      ensures attr == old(attr) && content == old(content)
    {
      childrenIno := childrenIno + [child];
    }

    /**
     * `remove_child`: scan for the first occurrence of `child` and remove it.
     * The source panics when `child` is absent, so callers must not do that.
     */
    method RemoveChild(child: u64)
      requires child in childrenIno
      modifies this
      ensures childrenIno == RemoveFirst(old(childrenIno), child)
      ensures ino == old(ino) && parentIno == old(parentIno)
      ensures attr == old(attr) && content == old(content)
    {
      var index := 0;
      while index < |childrenIno| && childrenIno[index] != child
        invariant 0 <= index <= |childrenIno|
        invariant forall j :: 0 <= j < index ==> childrenIno[j] != child
      {
        index := index + 1;
      }
      RemoveFirstAt(childrenIno, child, index);
      childrenIno := childrenIno[..index] + childrenIno[index + 1..];
    }

    /** `file_attr`: the attributes as the kernel sees them, for the given owner. */
    function FileAttributes(uid: u32, gid: u32): (a: FileAttr)
      reads this
      ensures a.ino == ino && a.size == attr.size && a.perm == attr.permissions
      ensures a.uid == uid && a.gid == gid
      ensures a.atime == a.mtime == attr.mtime && a.crtime == a.ctime == attr.ctime
      ensures a.kind == FileTypeOf(attr.kind)
      ensures a.blocks >= 1 && (a.blocks - 1) * BLOCK_SIZE <= a.size < a.blocks * BLOCK_SIZE
      ensures a.nlink == 1 && a.rdev == 0 && a.flags == 0 && a.blksize == BLOCK_SIZE
    {
      FileAttr(
        ino := ino,
        size := attr.size,
        blocks := attr.size / BLOCK_SIZE + 1,
        atime := attr.mtime,
        mtime := attr.mtime,
        ctime := attr.ctime,
        crtime := attr.ctime,
        kind := FileTypeOf(attr.kind),
        perm := attr.permissions,
        nlink := DEFAULT_HARD_LINKS,
        uid := uid,
        gid := gid,
        rdev := RDEV,
        blksize := BLOCK_SIZE,
        flags := FLAGS)
    }
  }

  /** An inode built from a converted entry: one block, all four times the commit date, default permissions. */
  lemma ConvertedEntryAttr(n: Inode, o: Object, uid: u32, gid: u32)
    requires AttributesFromObject(o) == Ok(n.attr)
    ensures var a := n.FileAttributes(uid, gid);
      && a.size == 0 && a.blocks == 1
      && a.atime == a.mtime == a.ctime == a.crtime == Decimal.ParseU64(o.commitDate).value
      && (a.kind == Directory <==> a.perm == DEFAULT_DIR_PERMISSIONS)
      && (a.kind == RegularFile <==> a.perm == DEFAULT_FILE_PERMISSIONS)
  {
  }

  /** The root inode is a 4096-byte directory of two blocks with permissions 0o755. */
  lemma RootAttr(n: Inode, fsName: string, mtimeNow: Seconds, ctimeNow: Seconds, uid: u32, gid: u32)
    requires n.ino == FUSE_ROOT_ID && n.attr == RootAttributes(fsName, mtimeNow, ctimeNow)
    ensures var a := n.FileAttributes(uid, gid);
      && a.ino == FUSE_ROOT_ID && a.kind == Directory && a.perm == DEFAULT_DIR_PERMISSIONS
      && a.size == 4096 && a.blocks == 2 && a.atime == a.mtime == mtimeNow && a.crtime == a.ctime == ctimeNow
  {
  }

  /** The first entry of the sample tree listing in the repository's own test. */
  const SampleEntry := Object(
    id := "d2c73088bc71e8b6ce07ec2e95087b57c42286d4",
    name := "deny.toml",
    path := "/projects/fuser/deny.toml",
    contentType := File,
    commitDate := "1701057603",
    underRepo := true,
    commitMsg := "",
    commitId := "b6eb9ec1046d0e64adbcfdebe09d28eab43a94f9")

  /** The sample path loses `/` and `projects` and keeps the repository segment `fuser`. */
  lemma SamplePathKeepsRepository(p: string)
    requires p == "/projects/fuser/deny.toml"
    ensures Paths.SkipComponents(p, 2) == "fuser/deny.toml"
  {
    var segs := ["projects", "fuser", "deny.toml"];
    var tail := segs[1..];
    assert Paths.Join(tail) == "fuser/deny.toml" by {
      assert tail == ["fuser", "deny.toml"] && tail[1..] == ["deny.toml"];
      assert Paths.Join(tail) == "fuser" + "/" + "deny.toml";
    }
    assert p == "/" + Paths.Join(segs) by {
      assert segs[1..] == tail;
    }
    Paths.SkipRootAndFirst(segs);
  }

  lemma SampleCommitDateParses(date: string)
    requires date == "1701057603"
    ensures Decimal.ParseU64(date) == Some(1701057603)
  {
    assert Decimal.DigitsValue("1") == 1 by { assert "1"[..0] == ""; }
    assert Decimal.DigitsValue("17") == 17 by { assert "17"[..1] == "1"; }
    assert Decimal.DigitsValue("170") == 170 by { assert "170"[..2] == "17"; }
    assert Decimal.DigitsValue("1701") == 1701 by { assert "1701"[..3] == "170"; }
    assert Decimal.DigitsValue("17010") == 17010 by { assert "17010"[..4] == "1701"; }
    assert Decimal.DigitsValue("170105") == 170105 by { assert "170105"[..5] == "17010"; }
    assert Decimal.DigitsValue("1701057") == 1701057 by { assert "1701057"[..6] == "170105"; }
    assert Decimal.DigitsValue("17010576") == 17010576 by { assert "17010576"[..7] == "1701057"; }
    assert Decimal.DigitsValue("170105760") == 170105760 by { assert "170105760"[..8] == "17010576"; }
    assert Decimal.DigitsValue("1701057603") == 1701057603 by { assert "1701057603"[..9] == "170105760"; }
  }

  /** The sample entry keeps its repository segment: its path becomes `fuser/deny.toml`. */
  lemma SampleEntryConverts()
    ensures AttributesFromObject(SampleEntry) == Ok(InodeAttributes(
      id := "d2c73088bc71e8b6ce07ec2e95087b57c42286d4",
      size := 0,
      name := "deny.toml",
      kind := File,
      path := "fuser/deny.toml",
      mtime := 1701057603,
      ctime := 1701057603,
      permissions := DEFAULT_FILE_PERMISSIONS))
  {
    SamplePathKeepsRepository(SampleEntry.path);
    SampleCommitDateParses(SampleEntry.commitDate);
    assert Decimal.ParseU64(SampleEntry.commitDate) == Some(1701057603);
  }
}
