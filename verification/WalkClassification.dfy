/**
 Which entries are visited and descended into, and how far the kind of an entry depends on
 whether the directory record carries its type (src/walk/bc_io_walk_parallel.c:119-241; src/walk/bc_io_walk_sequential.c:106-209).
 */
module WalkClassification {
  import opened Bytes
  import opened WalkReference
  import opened WalkStats
  import PathJoin

  /** What a consistent filesystem says of an entry: stat follows links only, and the record type is right. */
  ghost predicate Consistent(entry: Entry) {
    && entry.lstat.Some?
    && (!entry.lstat.value.fileType.Symlink? ==> entry.stat == entry.lstat)
    && (entry.dType != DT_UNKNOWN ==> KindOfDType(entry.dType) == KindOfFileType(entry.lstat.value.fileType))
  }

  function KindOf(cfg: Config, entry: Entry): Option<Kind> {
    match Resolve(cfg, entry) case None => None case Some((kind, _)) => Some(kind)
  }

  /** A link whose target matters to the walk: a file, a directory, or nothing. */
  predicate LinkToFollow(cfg: Config, entry: Entry) {
    cfg.followSymlinks && entry.lstat.Some? && entry.lstat.value.fileType.Symlink?
    && (entry.stat.None? || entry.stat.value.fileType.Regular? || entry.stat.value.fileType.Directory?)
  }

  /**
   Leaving the type out of the record changes the kind of exactly the links that would be
   followed: an untyped link is classified from its own status and stays a link.
   */
  lemma UntypedLinksAreNotFollowed(cfg: Config, entry: Entry)
    requires Consistent(entry) && entry.dType != DT_UNKNOWN
    ensures KindOf(cfg, entry) == KindOf(cfg, entry.(dType := DT_UNKNOWN)) <==> !LinkToFollow(cfg, entry)
    ensures entry.lstat.value.fileType.Symlink? ==> KindOf(cfg, entry.(dType := DT_UNKNOWN)) == Some(Link)
  {
    match entry.lstat.value.fileType
    case Regular =>
    case Directory =>
    case Symlink =>
    case Special =>
  }

  /** A link to a directory, as typed and as untyped record. */
  function DirectoryLink(dType: byte): Entry {
    Entry([76], dType, Some(Stat(Symlink, 0, 0, 1, 0, 0)), Some(Stat(Directory, 0, 0, 2, 0, 0)))
  }

  /** With following on, the typed link is a directory to the walk and the untyped one is not. */
  lemma UntypedLinkExample(cfg: Config)
    requires cfg.followSymlinks
    ensures Consistent(DirectoryLink(DT_LNK)) && LinkToFollow(cfg, DirectoryLink(DT_LNK))
    ensures KindOf(cfg, DirectoryLink(DT_LNK)) == Some(Folder)
    ensures KindOf(cfg, DirectoryLink(DT_UNKNOWN)) == Some(Link)
  {
  }

  /**
   A file or directory keeps its kind without a type in the record, but is reported with an empty permission
   mask, although its metadata counts as populated: only an entry without permission bits is reported the same.
   */
  lemma UntypedEntriesLosePermissions(cfg: Config, entry: Entry)
    requires Consistent(entry) && entry.dType != DT_UNKNOWN
    requires entry.lstat.value.fileType.Regular? || entry.lstat.value.fileType.Directory?
    ensures var typed, untyped := Resolve(cfg, entry), Resolve(cfg, entry.(dType := DT_UNKNOWN));
            && typed.Some? && untyped.Some? && typed.value.0 == untyped.value.0
            && untyped.value.1 == typed.value.1.(permissions := 0) && untyped.value.1.populated
            && (typed == untyped <==> entry.lstat.value.mode % 0x1000 == 0)
  {
    assert KindOfDType(entry.dType).File? || KindOfDType(entry.dType).Folder?;
  }

  // ---------- a filesystem without record types ----------

  function Erase(entry: Entry): Entry {
    entry.(dType := DT_UNKNOWN)
  }

  function EraseAll(entries: seq<Entry>): seq<Entry> {
    if entries == [] then [] else [Erase(entries[0])] + EraseAll(entries[1..])
  }

  /** The same walk on a filesystem that does not fill in record types. */
  function Untyped(cfg: Config): Config {
    cfg.(open := path =>
      match cfg.open(path)
      case None => None
      case Some(listing) => Some(Listing(EraseAll(listing.entries), listing.readFails)))
  }

  /**
   What a record without a type does not change of the metadata: of files and directories everything but the
   permission mask, of links and special files nothing.
   */
  function Bare(entry: WalkEntry): WalkEntry {
    entry.(details := if entry.kind.File? || entry.kind.Folder? then entry.details.(permissions := 0) else NoDetails)
  }

  /** An event with what record types do not change of its entry. */
  function Shape(ev: Event): Event {
    match ev
    case Filtered(e) => Filtered(Bare(e))
    case FileVisited(e) => FileVisited(Bare(e))
    case FolderVisited(e) => FolderVisited(Bare(e))
    case _ => ev
  }

  function Shapes(log: seq<Event>): seq<Event> {
    if log == [] then [] else [Shape(log[0])] + Shapes(log[1..])
  }

  lemma {:induction false} ShapesConcat(a: seq<Event>, b: seq<Event>)
    ensures Shapes(a + b) == Shapes(a) + Shapes(b)
  {
    if a == [] {
      assert a + b == b;
    } else {
      assert (a + b)[1..] == a[1..] + b;
      ShapesConcat(a[1..], b);
    }
  }

  /** The filter and the descent check do not look at permissions, nor at the metadata of links and special files. */
  ghost predicate IgnoresLostMetadata(cfg: Config) {
    forall e :: cfg.filter(e) == cfg.filter(Bare(e)) && cfg.shouldDescend(e) == cfg.shouldDescend(Bare(e))
  }

  /** No link of the filesystem is one that the walk would follow. */
  ghost predicate NothingToFollow(cfg: Config) {
    forall path, e :: cfg.open(path).Some? && e in cfg.open(path).value.entries ==> Consistent(e) && !LinkToFollow(cfg, e)
  }

  lemma ExaminedAlike(cfg: Config, dir: Dir, entry: Entry)
    requires IgnoresLostMetadata(cfg) && Consistent(entry) && !LinkToFollow(cfg, entry)
    ensures var x, y := Examine(cfg, dir, entry), Examine(Untyped(cfg), dir, Erase(entry));
            Shapes(y.events) == Shapes(x.events) && y.descend == x.descend
  {
    if entry.dType != DT_UNKNOWN {
      UntypedLinksAreNotFollowed(cfg, entry);
      if entry.lstat.value.fileType.Regular? || entry.lstat.value.fileType.Directory? {
        UntypedEntriesLosePermissions(cfg, entry);
      }
    }
    assert Resolve(Untyped(cfg), Erase(entry)) == Resolve(cfg, Erase(entry));
    match (Resolve(cfg, entry), Resolve(cfg, Erase(entry)))
    case (Some((kind, details)), Some((kind', details'))) =>
      var e := WalkEntry(PathJoin.Joined(dir.path, entry.name), kind, dir.depth + 1, details);
      var e' := WalkEntry(PathJoin.Joined(dir.path, entry.name), kind', dir.depth + 1, details');
      assert kind == kind' && Bare(e) == Bare(e');
      assert cfg.filter(e) == cfg.filter(Bare(e)) == cfg.filter(e');
      assert cfg.shouldDescend(e) == cfg.shouldDescend(Bare(e)) == cfg.shouldDescend(e');
    case _ =>
  }

  lemma {:induction false} DirAlike(cfg: Config, dir: Dir)
    requires IgnoresLostMetadata(cfg) && NothingToFollow(cfg)
    ensures Shapes(DirTrace(Untyped(cfg), dir)) == Shapes(DirTrace(cfg, dir))
    decreases Room(dir.path), 1, 0
  {
    if cfg.open(dir.path).Some? {
      var listing := cfg.open(dir.path).value;
      ScanAlike(cfg, dir, listing.entries, listing.readFails);
      ShapesConcat([Opened(dir.path)], ScanTrace(cfg, dir, listing.entries, listing.readFails));
      ShapesConcat([Opened(dir.path)], ScanTrace(Untyped(cfg), dir, EraseAll(listing.entries), listing.readFails));
    }
  }

  lemma {:induction false} ScanAlike(cfg: Config, dir: Dir, entries: seq<Entry>, readFails: bool)
    requires IgnoresLostMetadata(cfg) && NothingToFollow(cfg)
    requires forall e :: e in entries ==> Consistent(e) && !LinkToFollow(cfg, e)
    ensures Shapes(ScanTrace(Untyped(cfg), dir, EraseAll(entries), readFails)) == Shapes(ScanTrace(cfg, dir, entries, readFails))
    decreases Room(dir.path), 0, |entries|
  {
    if entries != [] {
      var x, y := Examine(cfg, dir, entries[0]), Examine(Untyped(cfg), dir, Erase(entries[0]));
      assert entries[0] in entries;
      ExaminedAlike(cfg, dir, entries[0]);
      ScanAlike(cfg, dir, entries[1..], readFails);
      if x.descend.Some? {
        DirAlike(cfg, x.descend.value);
      }
      assert EraseAll(entries)[0] == Erase(entries[0]) && EraseAll(entries)[1..] == EraseAll(entries[1..]);
      ShapesOfScan(cfg, dir, entries, readFails);
      ShapesOfScan(Untyped(cfg), dir, EraseAll(entries), readFails);
    }
  }

  lemma ShapesOfScan(cfg: Config, dir: Dir, entries: seq<Entry>, readFails: bool)
    requires entries != []
    ensures var x := Examine(cfg, dir, entries[0]);
            Shapes(ScanTrace(cfg, dir, entries, readFails))
            == Shapes(x.events) + Shapes(DescentTrace(cfg, x.descend)) + Shapes(ScanTrace(cfg, dir, entries[1..], readFails))
  {
    var x := Examine(cfg, dir, entries[0]);
    ShapesConcat(x.events, DescentTrace(cfg, x.descend));
    ShapesConcat(x.events + DescentTrace(cfg, x.descend), ScanTrace(cfg, dir, entries[1..], readFails));
  }

  lemma {:induction false} TallySeesShapes(log: seq<Event>)
    ensures Tally(Shapes(log)) == Tally(log)
  {
    if log != [] {
      var init, last := log[..|log| - 1], log[|log| - 1];
      assert log == init + [last];
      ShapesConcat(init, [last]);
      TallySeesShapes(init);
      TallyAppend(Shapes(init), Shape(last));
      assert Shapes([last]) == [Shape(last)];
    }
  }

  /**
   Where no link would be followed and nothing is decided by permissions, or by the metadata of links and
   special files, a filesystem without record types is walked in the same way: the same events in the
   same order, that metadata apart, and the same counters.
   */
  lemma UntypedWalkIsAlike(cfg: Config, dir: Dir)
    requires IgnoresLostMetadata(cfg) && NothingToFollow(cfg)
    ensures Shapes(DirTrace(Untyped(cfg), dir)) == Shapes(DirTrace(cfg, dir))
    ensures Tally(DirTrace(Untyped(cfg), dir)) == Tally(DirTrace(cfg, dir))
  {
    DirAlike(cfg, dir);
    TallySeesShapes(DirTrace(cfg, dir));
    TallySeesShapes(DirTrace(Untyped(cfg), dir));
  }

  // ---------- a filter that looks at permissions ----------

  const A: bytes := [65]

  function ReadableFile(): Entry {
    var stat := Some(Stat(Regular, 0, 0, 0, 0, 0x1A4));
    Entry([66], DT_REG, stat, stat)
  }

  /** A directory with one readable file, and a filter that only lets entries with some permission bit through. */
  function OneFile(): Config {
    Config(A, false, true, path => if path == A then Some(Listing([ReadableFile()], false)) else None,
           (e: WalkEntry) => e.details.permissions != 0, _ => true, _ => true)
  }

  lemma OneFileIsVisited()
    ensures Tally(DirTrace(OneFile(), At(A, 0))) == Stats(1, 1, 0, 0)
  {
    var cfg, dir := OneFile(), At(A, 0);
    var entries := [ReadableFile()];
    var e := WalkEntry(PathJoin.Joined(A, [66]), File, 1, Details(0, 0, 0, 0, 0x1A4, true));
    assert Examine(cfg, dir, entries[0]) == Examined([FileVisited(e)], None);
    assert entries[1..] == [] && ScanTrace(cfg, dir, [], false) == [];
    assert DirTrace(cfg, dir) == [Opened(A), FileVisited(e)];
    TallyOfTwo(Opened(A), FileVisited(e));
  }

  lemma OneUntypedFileIsSkipped()
    ensures Tally(DirTrace(Untyped(OneFile()), At(A, 0))) == Stats(0, 1, 1, 0)
  {
    var cfg, dir := Untyped(OneFile()), At(A, 0);
    var entries := [Erase(ReadableFile())];
    assert [ReadableFile()][1..] == [] && EraseAll([ReadableFile()]) == entries;
    var e := WalkEntry(PathJoin.Joined(A, [66]), File, 1, Details(0, 0, 0, 0, 0, true));
    assert Examine(cfg, dir, entries[0]) == Examined([Filtered(e)], None);
    assert entries[1..] == [] && ScanTrace(cfg, dir, [], false) == [];
    assert DirTrace(cfg, dir) == [Opened(A), Filtered(e)];
    TallyOfTwo(Opened(A), Filtered(e));
  }

  lemma TallyOfTwo(a: Event, b: Event)
    ensures Tally([a, b]) == Bump(Bump(ZeroStats, a), b)
  {
    TallyAppend([], a);
    TallyAppend([a], b);
    assert [] + [a] == [a] && [a] + [b] == [a, b];
  }

  /** With such a filter the same file, no link in sight, is visited with a record type and skipped without. */
  lemma PermissionFilterExample()
    ensures NothingToFollow(OneFile())
    ensures Tally(DirTrace(OneFile(), At(A, 0))) != Tally(DirTrace(Untyped(OneFile()), At(A, 0)))
  {
    OneFileIsVisited();
    OneUntypedFileIsSkipped();
  }
}
