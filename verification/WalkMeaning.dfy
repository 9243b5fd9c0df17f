/**
 What the events of a walk mean, stated without the recursion: an event belongs to the walk of a
 directory exactly when some chain of accepted directories leads to one whose opening, listing or
 entries cause it (src/walk/bc_io_walk_sequential.c:58-214, src/file/bc_io_file_path.c:60-111).
 */
module WalkMeaning {
  import opened Bytes
  import opened WalkReference
  import PathJoin

  // ---------- one entry, as the kernel describes it ----------

  /** Names that start with a dot are left out unless they are asked for. */
  predicate IsSeen(cfg: Config, entry: Entry) {
    cfg.includeHidden || |entry.name| == 0 || entry.name[0] != 46
  }

  predicate FullDetails(details: Details, st: Stat) {
    && details.size == st.size && details.device == st.device && details.inode == st.inode
    && details.modified == st.modified && details.permissions == st.mode % 4096 && details.populated
  }

  /** The status that fstatat is asked for. */
  function StatusOf(cfg: Config, entry: Entry): Option<Stat> {
    if cfg.followSymlinks then entry.stat else entry.lstat
  }

  predicate NoMetadata(details: Details) {
    details.size == details.device == details.inode == details.permissions == 0 && details.modified == 0 && !details.populated
  }

  /** How an entry is reported, by the type in its record: 8 a file, 4 a directory, 10 a link, 0 none at all. */
  ghost predicate IsReportedAs(cfg: Config, entry: Entry, kind: Kind, details: Details) {
    && (entry.dType == 8 ==>
          kind == File && exists st :: StatusOf(cfg, entry) == Some(st) && FullDetails(details, st))
    && (entry.dType == 4 ==>
          kind == Folder && exists st :: StatusOf(cfg, entry) == Some(st) && FullDetails(details, st))
    && (entry.dType == 10 && cfg.followSymlinks ==>
          exists st :: entry.stat == Some(st) && FullDetails(details, st)
            && (kind == File <==> st.fileType == Regular) && (kind == Folder <==> st.fileType == Directory) && kind != Other)
    && (entry.dType == 10 && !cfg.followSymlinks ==> kind == Link && NoMetadata(details))
    && (entry.dType !in {0, 4, 8, 10} ==> kind == Other && NoMetadata(details))
    && (entry.dType == 0 ==>
          exists st :: entry.lstat == Some(st) && FullDetails(details.(permissions := st.mode % 4096), st)
            && details.permissions == 0
            && (kind == File <==> st.fileType == Regular) && (kind == Folder <==> st.fileType == Directory)
            && (kind == Link <==> st.fileType == Symlink))
  }

  /** The status that is needed cannot be had. */
  predicate HasNoStatus(cfg: Config, entry: Entry) {
    || (entry.dType in {4, 8} && StatusOf(cfg, entry) == None)
    || (entry.dType == 10 && cfg.followSymlinks && entry.stat == None)
    || (entry.dType == 0 && entry.lstat == None)
  }

  function PathOf(dir: Dir, entry: Entry): bytes {
    dir.path + [47] + entry.name
  }

  /** The entry is reported to the callbacks as `e`. */
  ghost predicate Shows(cfg: Config, dir: Dir, entry: Entry, e: WalkEntry) {
    && IsSeen(cfg, entry) && |PathOf(dir, entry)| < 4096
    && e.path == PathOf(dir, entry) && e.depth == dir.depth + 1 && IsReportedAs(cfg, entry, e.kind, e.details)
  }

  ghost predicate EntryCauses(cfg: Config, dir: Dir, entry: Entry, ev: Event) {
    match ev
    case PathTooLong(path) => IsSeen(cfg, entry) && path == dir.path && |PathOf(dir, entry)| >= 4096
    case StatFailed(path) => IsSeen(cfg, entry) && path == PathOf(dir, entry) && |path| < 4096 && HasNoStatus(cfg, entry)
    case Filtered(e) => Shows(cfg, dir, entry, e) && !cfg.filter(e)
    case FileVisited(e) => Shows(cfg, dir, entry, e) && cfg.filter(e) && e.kind == File
    case FolderVisited(e) => Shows(cfg, dir, entry, e) && cfg.filter(e) && e.kind == Folder
    case _ => false
  }

  ghost predicate EntryLeadsTo(cfg: Config, dir: Dir, entry: Entry, sub: Dir) {
    exists e :: EntryCauses(cfg, dir, entry, FolderVisited(e)) && cfg.shouldDescend(e) && sub == At(e.path, e.depth)
  }

  lemma StatusDecides(cfg: Config, entry: Entry)
    ensures HasNoStatus(cfg, entry) <==> Resolve(cfg, entry) == None
    ensures forall kind, details ::
              IsReportedAs(cfg, entry, kind, details) <==> Resolve(cfg, entry) == Some((kind, details))
  {
    forall kind, details
      ensures IsReportedAs(cfg, entry, kind, details) <==> Resolve(cfg, entry) == Some((kind, details))
    {
      ReportIsResolved(cfg, entry, kind, details);
    }
  }

  lemma ReportIsResolved(cfg: Config, entry: Entry, kind: Kind, details: Details)
    ensures IsReportedAs(cfg, entry, kind, details) <==> Resolve(cfg, entry) == Some((kind, details))
  {
    match Resolve(cfg, entry)
    case None =>
    case Some((k, d)) =>
      assert IsReportedAs(cfg, entry, kind, details) ==> kind == k && details == d;
  }

  lemma EventMeans(cfg: Config, dir: Dir, entry: Entry, ev: Event)
    ensures ev in Examine(cfg, dir, entry).events <==> EntryCauses(cfg, dir, entry, ev)
  {
    StatusDecides(cfg, entry);
    hide IsReportedAs, HasNoStatus, Resolve;
    assert PathJoin.Joined(dir.path, entry.name) == PathOf(dir, entry);
    var x := Examine(cfg, dir, entry);
    assert x.events == [] || x.events == [x.events[0]];
    match Resolve(cfg, entry)
    case None =>
    case Some((kind, details)) =>
      var shown := WalkEntry(PathOf(dir, entry), kind, dir.depth + 1, details);
      assert forall e :: Shows(cfg, dir, entry, e) ==> e == shown;
  }

  /** An entry causes exactly the events that its examination yields, and leads where that leads. */
  lemma ExaminationMeans(cfg: Config, dir: Dir, entry: Entry)
    ensures var x := Examine(cfg, dir, entry);
            && (forall ev :: ev in x.events <==> EntryCauses(cfg, dir, entry, ev))
            && (forall sub: Dir :: x.descend == Some(sub) <==> EntryLeadsTo(cfg, dir, entry, sub))
  {
    var x := Examine(cfg, dir, entry);
    StatusDecides(cfg, entry);
    hide IsReportedAs, HasNoStatus, Resolve;
    assert PathJoin.Joined(dir.path, entry.name) == PathOf(dir, entry);
    forall ev ensures ev in x.events <==> EntryCauses(cfg, dir, entry, ev) {
      EventMeans(cfg, dir, entry, ev);
    }
    forall sub: Dir ensures x.descend == Some(sub) <==> EntryLeadsTo(cfg, dir, entry, sub) {
      if x.descend == Some(sub) {
        assert x.events[0].FolderVisited? && x.events[0] in x.events;
        var e := x.events[0].entry;
        assert EntryCauses(cfg, dir, entry, FolderVisited(e));
      }
      if EntryLeadsTo(cfg, dir, entry, sub) {
        var e :| EntryCauses(cfg, dir, entry, FolderVisited(e)) && cfg.shouldDescend(e) && sub == At(e.path, e.depth);
        assert FolderVisited(e) in x.events;
      }
    }
  }

  // ---------- a directory ----------

  /** The directory itself causes the event: by being opened, by the end of its listing, or by an entry. */
  ghost predicate Causes(cfg: Config, dir: Dir, ev: Event) {
    match cfg.open(dir.path)
    case None => ev == OpenFailed(dir.path)
    case Some(listing) =>
      || ev == Opened(dir.path)
      || (listing.readFails && ev == ReadFailed(dir.path))
      || exists entry :: entry in listing.entries && EntryCauses(cfg, dir, entry, ev)
  }

  ghost predicate LeadsTo(cfg: Config, dir: Dir, sub: Dir) {
    cfg.open(dir.path).Some?
    && exists entry :: entry in cfg.open(dir.path).value.entries && EntryLeadsTo(cfg, dir, entry, sub)
  }

  /** Each directory of the chain is entered from the one before. */
  ghost predicate Trail(cfg: Config, trail: seq<Dir>) {
    trail != [] && forall i :: 0 < i < |trail| ==> LeadsTo(cfg, trail[i - 1], trail[i])
  }

  ghost predicate Means(cfg: Config, from: Dir, ev: Event) {
    exists trail: seq<Dir> :: Trail(cfg, trail) && trail[0] == from && Causes(cfg, trail[|trail| - 1], ev)
  }

  // ---------- the recursion does just that ----------

  lemma {:induction false} CausedIsTraced(cfg: Config, trail: seq<Dir>, ev: Event)
    requires Trail(cfg, trail) && Causes(cfg, trail[|trail| - 1], ev)
    ensures ev in DirTrace(cfg, trail[0])
    decreases |trail|
  {
    var dir := trail[0];
    if |trail| == 1 {
      if cfg.open(dir.path).Some? && ev != Opened(dir.path) {
        var listing := cfg.open(dir.path).value;
        OwnIsScanned(cfg, dir, listing.entries, listing.readFails, ev);
      }
    } else {
      assert LeadsTo(cfg, trail[0], trail[1]);
      var listing := cfg.open(dir.path).value;
      var entry :| entry in listing.entries && EntryLeadsTo(cfg, dir, entry, trail[1]);
      var tail := trail[1..];
      forall i | 0 < i < |tail| ensures LeadsTo(cfg, tail[i - 1], tail[i]) {
        assert LeadsTo(cfg, trail[i + 1 - 1], trail[i + 1]);
      }
      CausedIsTraced(cfg, tail, ev);
      BelowIsScanned(cfg, dir, listing.entries, listing.readFails, entry, trail[1], ev);
    }
  }

  lemma {:induction false} OwnIsScanned(cfg: Config, dir: Dir, entries: seq<Entry>, readFails: bool, ev: Event)
    requires (readFails && ev == ReadFailed(dir.path)) || exists entry :: entry in entries && EntryCauses(cfg, dir, entry, ev)
    ensures ev in ScanTrace(cfg, dir, entries, readFails)
    decreases |entries|
  {
    if entries != [] {
      ExaminationMeans(cfg, dir, entries[0]);
      if !EntryCauses(cfg, dir, entries[0], ev) {
        OwnIsScanned(cfg, dir, entries[1..], readFails, ev);
      }
    }
  }

  lemma {:induction false} BelowIsScanned(cfg: Config, dir: Dir, entries: seq<Entry>, readFails: bool, entry: Entry, sub: Dir, ev: Event)
    requires entry in entries && EntryLeadsTo(cfg, dir, entry, sub) && ev in DirTrace(cfg, sub)
    ensures ev in ScanTrace(cfg, dir, entries, readFails)
    decreases |entries|
  {
    if entries[0] == entry {
      ExaminationMeans(cfg, dir, entry);
    } else {
      BelowIsScanned(cfg, dir, entries[1..], readFails, entry, sub, ev);
    }
  }

  lemma {:induction false} TracedIsCaused(cfg: Config, dir: Dir, ev: Event) returns (trail: seq<Dir>)
    requires ev in DirTrace(cfg, dir)
    ensures Trail(cfg, trail) && trail[0] == dir && Causes(cfg, trail[|trail| - 1], ev)
    decreases Room(dir.path), 1, 0
  {
    trail := [dir];
    if !Causes(cfg, dir, ev) {
      var listing := cfg.open(dir.path).value;
      var entry, below := ScannedIsCaused(cfg, dir, listing.entries, listing.readFails, ev);
      trail := [dir] + below;
      assert LeadsTo(cfg, dir, below[0]);
      forall i | 0 < i < |trail| ensures LeadsTo(cfg, trail[i - 1], trail[i]) {
        if i > 1 {
          assert LeadsTo(cfg, below[i - 2], below[i - 1]);
        }
      }
    }
  }

  /** An event of the scan that the directory does not cause itself comes from below one of the entries. */
  lemma {:induction false} ScannedIsCaused(cfg: Config, dir: Dir, entries: seq<Entry>, readFails: bool, ev: Event)
    returns (entry: Entry, below: seq<Dir>)
    requires ev in ScanTrace(cfg, dir, entries, readFails)
    requires !(readFails && ev == ReadFailed(dir.path)) && forall e :: e in entries ==> !EntryCauses(cfg, dir, e, ev)
    ensures entry in entries && Trail(cfg, below) && EntryLeadsTo(cfg, dir, entry, below[0])
    ensures Causes(cfg, below[|below| - 1], ev)
    decreases Room(dir.path), 0, |entries|
  {
    var x := Examine(cfg, dir, entries[0]);
    ExaminationMeans(cfg, dir, entries[0]);
    assert entries[0] in entries && ev !in x.events;
    if ev in DescentTrace(cfg, x.descend) {
      entry := entries[0];
      below := TracedIsCaused(cfg, x.descend.value, ev);
    } else {
      entry, below := ScannedIsCaused(cfg, dir, entries[1..], readFails, ev);
    }
  }

  /** The recursive walk of a directory consists of exactly the events that mean something there. */
  lemma TraceIsMeaning(cfg: Config, dir: Dir, ev: Event)
    ensures ev in DirTrace(cfg, dir) <==> Means(cfg, dir, ev)
  {
    if ev in DirTrace(cfg, dir) {
      var trail := TracedIsCaused(cfg, dir, ev);
    }
    if Means(cfg, dir, ev) {
      var trail: seq<Dir> :| Trail(cfg, trail) && trail[0] == dir && Causes(cfg, trail[|trail| - 1], ev);
      CausedIsTraced(cfg, trail, ev);
    }
  }
}
