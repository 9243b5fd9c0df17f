/**
 The meaning of a directory walk: what is done with each entry, and the trace of
 observable events of the recursive walk (src/walk/bc_io_walk_sequential.c:58-214).
 Callbacks and the filesystem are fixed functions.
 */
module WalkReference {
  import opened Bytes
  import PathJoin

  const MAX_PATH_LENGTH: nat := 4096

  const DT_UNKNOWN: byte := 0
  const DT_DIR: byte := 4
  const DT_REG: byte := 8
  const DT_LNK: byte := 10

  datatype FileType = Regular | Directory | Symlink | Special
  datatype Stat = Stat(fileType: FileType, size: nat, device: nat, inode: nat, modified: int, mode: nat)

  /** A directory record together with what fstatat answers about it, without and with following links. */
  datatype Entry = Entry(name: bytes, dType: byte, lstat: Option<Stat>, stat: Option<Stat>)

  /** What reading an open directory yields: its entries in order, then end of directory or an error. */
  datatype Listing = Listing(entries: seq<Entry>, readFails: bool)

  datatype Kind = File | Folder | Link | Other
  datatype Details = Details(size: nat, device: nat, inode: nat, modified: int, permissions: nat, populated: bool)
  datatype WalkEntry = WalkEntry(path: bytes, kind: Kind, depth: nat, details: Details)

  datatype Location = At(path: bytes, depth: nat)

  /** A directory to process. Walks start at a non-empty root path, so paths are never empty. */
  type Dir = d: Location | d.path != [] witness At([SLASH], 0)

  /** `open` answers None when the directory cannot be opened with the walk's flags. */
  datatype Config = Config(
    root: bytes,
    followSymlinks: bool,
    includeHidden: bool,
    open: bytes -> Option<Listing>,
    filter: WalkEntry -> bool,
    shouldDescend: WalkEntry -> bool,
    visit: WalkEntry -> bool)

  /** Everything a walk does that its caller can observe: callbacks made and directories read. */
  datatype Event =
    | Opened(path: bytes)
    | OpenFailed(path: bytes)
    | ReadFailed(path: bytes)
    | PathTooLong(path: bytes)
    | StatFailed(path: bytes)
    | ReaderFailed(path: bytes)
    | Filtered(entry: WalkEntry)
    | FileVisited(entry: WalkEntry)
    | FolderVisited(entry: WalkEntry)

  // ---------- classifying one entry ----------

  /** bc_io_file_dtype_to_entry_type followed by bc_io_walk_entry_kind_from_type. */
  function KindOfDType(dType: byte): Kind {
    if dType == DT_REG then File
    else if dType == DT_DIR then Folder
    else if dType == DT_LNK then Link
    else Other
  }

  function KindOfFileType(fileType: FileType): Kind {
    match fileType
    case Regular => File
    case Directory => Folder
    case Symlink => Link
    case Special => Other
  }

  const NoDetails := Details(0, 0, 0, 0, 0, false)

  /** The kind and metadata the walk reports for an entry; None when a stat call fails. */
  function Resolve(cfg: Config, entry: Entry): Option<(Kind, Details)> {
    if entry.dType == DT_UNKNOWN then
      match entry.lstat
      case None => None
      case Some(st) =>
        Some((KindOfFileType(st.fileType), Details(st.size, st.device, st.inode, st.modified, 0, true)))
    else
      var kind := KindOfDType(entry.dType);
      if kind.File? || kind.Folder? || (kind.Link? && cfg.followSymlinks) then
        match if cfg.followSymlinks then entry.stat else entry.lstat
        case None => None
        case Some(st) =>
          var details := Details(st.size, st.device, st.inode, st.modified, st.mode % 0x1000, true);
          if kind.Link? && st.fileType.Regular? then Some((File, details))
          else if kind.Link? && st.fileType.Directory? then Some((Folder, details))
          else Some((kind, details))
      else
        Some((kind, NoDetails))
  }

  /** What one entry contributes: the events it causes and the directory to descend into, if any. */
  datatype Examined = Examined(events: seq<Event>, descend: Option<Dir>)

  function Examine(cfg: Config, dir: Dir, entry: Entry): (x: Examined)
    ensures x.descend.Some? ==> x.descend.value.path == PathJoin.Joined(dir.path, entry.name)
    ensures x.descend.Some? ==> |dir.path| < |x.descend.value.path| < MAX_PATH_LENGTH
  {
    if |entry.name| > 0 && entry.name[0] == DOT && !cfg.includeHidden then
      Examined([], None)
    else
      var path := PathJoin.Joined(dir.path, entry.name);
      if |path| + 1 > MAX_PATH_LENGTH then
        Examined([PathTooLong(dir.path)], None)
      else
        match Resolve(cfg, entry)
        case None => Examined([StatFailed(path)], None)
        case Some((kind, details)) =>
          var walkEntry := WalkEntry(path, kind, dir.depth + 1, details);
          if !cfg.filter(walkEntry) then Examined([Filtered(walkEntry)], None)
          else if kind.File? then Examined([FileVisited(walkEntry)], None)
          else if kind.Folder? then
            Examined([FolderVisited(walkEntry)],
                     if cfg.shouldDescend(walkEntry) then Some(At(path, walkEntry.depth)) else None)
          else Examined([], None)
  }

  // ---------- the recursive walk ----------

  /** How much longer a path can still get: the recursion measure of the walk. */
  function Room(path: bytes): nat {
    if |path| < MAX_PATH_LENGTH then MAX_PATH_LENGTH - |path| else 0
  }

  /** Everything an undisturbed walk of `dir` does, in the order the recursion does it. */
  function DirTrace(cfg: Config, dir: Dir): seq<Event>
    decreases Room(dir.path), 1, 0
  {
    match cfg.open(dir.path)
    case None => [OpenFailed(dir.path)]
    case Some(listing) => [Opened(dir.path)] + ScanTrace(cfg, dir, listing.entries, listing.readFails)
  }

  function ScanTrace(cfg: Config, dir: Dir, entries: seq<Entry>, readFails: bool): seq<Event>
    decreases Room(dir.path), 0, |entries|
  {
    if entries == [] then
      if readFails then [ReadFailed(dir.path)] else []
    else
      var x := Examine(cfg, dir, entries[0]);
      x.events
      + (match x.descend case None => [] case Some(sub) => DirTrace(cfg, sub))
      + ScanTrace(cfg, dir, entries[1..], readFails)
  }

  /** What the reference does for a descent, if there is one. */
  function DescentTrace(cfg: Config, descend: Option<Dir>): seq<Event> {
    match descend case None => [] case Some(sub) => DirTrace(cfg, sub)
  }
}
