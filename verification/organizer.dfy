/**
  The walk of `organize_directory` / `process_directory`: every entry of the directory being
  organised (the base) is classified, and files old enough are moved into a `YYYY-MM` bucket
  directly under the base, the outcome of each entry being added to a three-counter `Stats`.

  The filesystem is an immutable tree of `Entry` values, each directory listing being the snapshot
  `read_dir` would produce, together with the set of paths that currently exist, which the walk
  threads through and updates as it creates bucket directories and renames files. Whatever the
  operating system would decide (whether an entry or its metadata can be read, the file's
  timestamps, whether `create_dir_all` and `rename` succeed) is given as data in the tree.
*/
module Organizer {
  import opened Options
  import opened BucketName

  /** A path relative to the base: `[]` is the base itself, `[n]` an entry directly inside it. */
  type Path = seq<Name>

  type Month = m: int | 1 <= m <= 12 witness 1

  /** A file timestamp: nanoseconds since the Unix epoch (negative before it), with the calendar
      year and month it falls in in the local time zone. */
  datatype Stamp = Stamp(nanos: int, year: int, month: Month)

  /** One item produced by iterating a directory. */
  datatype Entry =
      /** The iterator yielded an error instead of an entry. */
    | BadEntry
      /** An entry whose metadata cannot be read. */
    | NoMetadata(name: Name)
      /** Anything that is not a directory, with its modification and access times (`None` when the
          platform cannot report one) and whether creating its bucket directory and renaming it
          into that bucket would succeed. */
    | File(name: Name, modified: Option<Stamp>, accessed: Option<Stamp>, mkdirOk: bool, renameOk: bool)
      /** A directory; `readable` is whether `read_dir` on it succeeds, and `children` is what it lists. */
    | Dir(name: Name, readable: bool, children: seq<Entry>)

  /** The options of a run, as parsed from the command line. */
  datatype Config = Config(dryRun: bool, minAgeDays: nat, recursive: bool, useAtime: bool)

  datatype Stats = Stats(moved: nat, skipped: nat, errors: nat)

  datatype Counter = Moved | Skipped | Errors

  /** The statistics and the set of paths that exist, threaded through the walk. */
  datatype State = State(stats: Stats, fs: set<Path>)

  /** The walk either completes, or stops at the first directory `read_dir` fails on; the filesystem
      changes made before that stay made. */
  datatype Outcome = Done(st: State) | Aborted(st: State)

  /** What `organize_directory` hands back: the statistics, or nothing when the walk aborted, and the
      filesystem as the run leaves it. */
  datatype Report = Report(stats: Option<Stats>, fs: set<Path>)

  const SecondsPerDay: nat := 24 * 60 * 60
  const NanosPerSecond: nat := 1_000_000_000

  function Total(s: Stats): nat {
    s.moved + s.skipped + s.errors
  }

  /** `s` is `t` with every counter at least as large. */
  predicate Below(s: Stats, t: Stats) {
    s.moved <= t.moved && s.skipped <= t.skipped && s.errors <= t.errors
  }

  /** Adds one to the counter `c` and leaves the other two alone. */
  function Bump(s: Stats, c: Counter): (r: Stats)
    ensures Below(s, r) && Total(r) == Total(s) + 1
    ensures c == Moved <==> r.moved == s.moved + 1
    ensures c == Skipped <==> r.skipped == s.skipped + 1
    ensures c == Errors <==> r.errors == s.errors + 1
  {
    match c
    case Moved => s.(moved := s.moved + 1)
    case Skipped => s.(skipped := s.skipped + 1)
    case Errors => s.(errors := s.errors + 1)
  }

  function Tally(st: State, c: Counter): State {
    st.(stats := Bump(st.stats, c))
  }

  // ---------------------------------------------------------------------------------------------
  // Age

  /** The minimum age `Duration::from_secs(min_age_days * 24 * 60 * 60)`, in nanoseconds. */
  function MinAge(cfg: Config): (r: nat)
    ensures r == cfg.minAgeDays * 86_400_000_000_000
    ensures r == 0 <==> cfg.minAgeDays == 0
  {
    cfg.minAgeDays * SecondsPerDay * NanosPerSecond
  }

  /** `SystemTime::duration_since`: how long before `now` the instant `earlier` lies, or an error
      when it lies after `now`. */
  function DurationSince(now: int, earlier: int): (r: Option<nat>)
    ensures r.Some? <==> earlier <= now
    ensures r.Some? ==> earlier + r.value == now
  {
    if earlier <= now then Some(now - earlier) else None
  }

  /** The age filter: a file is skipped when its age is known and below the minimum. A timestamp
      in the future makes `duration_since` fail, and the filter is then not applied. */
  predicate IsTooYoung(now: int, time: int, minAge: nat)
    ensures IsTooYoung(now, time, minAge) <==> time <= now && now - time < minAge
  {
    match DurationSince(now, time)
    case Some(age) => age < minAge
    case None => false
  }

  // ---------------------------------------------------------------------------------------------
  // Classification

  /** The timestamp the run looks at: the access time with `--use-atime`, else the modification time. */
  function ChosenStamp(cfg: Config, e: Entry): Option<Stamp>
    requires e.File?
  {
    if cfg.useAtime then e.accessed else e.modified
  }

  /** The name of the bucket a timestamp belongs in. */
  function BucketOf(t: Stamp): string {
    FormatBucket(t.year, t.month)
  }

  /** Where a file goes: `base_path / YYYY-MM / file_name`. */
  function Destination(t: Stamp, name: Name): (p: Path)
    ensures |p| == 2 && p[1] == name
    ensures p[0].Utf8? && |p[0].text| >= 7
  {
    [Utf8(BucketOf(t)), name]
  }

  /** A bucket directory directly inside the base: `path.parent() == Some(base_path)` holds exactly
      when the directory being listed is the base. */
  predicate IsBaseBucket(current: Path, name: Name) {
    IsYearMonthDir(name) && current == []
  }

  /** Whether the walk descends into a directory that is not a base bucket. */
  predicate Descends(cfg: Config, name: Name) {
    cfg.recursive && !IsYearMonthDir(name)
  }

  /** How an entry is handled. */
  datatype Action =
    | EntryError
    | MetadataError
    | SkipBucket
    | Descend
    | IgnoreDir
    | TimestampError
    | SkipYoung
    | SkipExisting(target: Path)
    | Move(target: Path)

  /** The decision `process_directory` takes for one entry of the directory at `current`, given
      the paths that exist at that moment. */
  function Classify(cfg: Config, now: int, current: Path, e: Entry, fs: set<Path>): (a: Action)
    ensures a.Descend? ==> e.Dir?
    ensures a.Move? ==> e.File? && |a.target| == 2 && a.target !in fs
  {
    match e
    case BadEntry => EntryError
    case NoMetadata(_) => MetadataError
    case Dir(name, _, _) =>
      if IsBaseBucket(current, name) then SkipBucket
      else if Descends(cfg, name) then Descend
      else IgnoreDir
    case File(name, _, _, _, _) =>
      match ChosenStamp(cfg, e)
      case None => TimestampError
      case Some(t) =>
        if IsTooYoung(now, t.nanos, MinAge(cfg)) then SkipYoung
        else
          var target := Destination(t, name);
          if target in fs then SkipExisting(target) else Move(target)
  }

  // ---------------------------------------------------------------------------------------------
  // Execution

  /** Moves the file `e` from `src` to `target`, or in a dry run only announces it. The counter
      to bump is returned with the resulting set of paths: `create_dir_all` of the bucket comes
      first and a failure there skips the rename; the bucket stays created if the rename fails. */
  function Execute(cfg: Config, e: Entry, src: Path, target: Path, fs: set<Path>): (r: (Counter, set<Path>))
    requires e.File? && |target| == 2
    ensures r.0 == Moved <==> cfg.dryRun || (e.mkdirOk && e.renameOk)
    ensures r.0 == Errors <==> !cfg.dryRun && !(e.mkdirOk && e.renameOk)
    ensures cfg.dryRun ==> r.1 == fs
    ensures !cfg.dryRun && r.0 == Moved ==> target in r.1
  {
    if cfg.dryRun then (Moved, fs)
    else if !e.mkdirOk then (Errors, fs)
    else
      var withBucket := fs + {target[..1]};
      if e.renameOk then (Moved, withBucket - {src} + {target})
      else (Errors, withBucket)
  }

  // ---------------------------------------------------------------------------------------------
  // The walk

  /** Handles one entry of the directory at `current`: the body of the loop in `process_directory`. */
  function Visit(cfg: Config, now: int, current: Path, e: Entry, st: State): (r: Outcome)
    ensures Below(st.stats, r.st.stats)
    ensures cfg.dryRun ==> r.st.fs == st.fs
    decreases e, 2
  {
    match Classify(cfg, now, current, e, st.fs)
    case EntryError => Done(Tally(st, Errors))
    case MetadataError => Done(Tally(st, Errors))
    case SkipBucket => Done(Tally(st, Skipped))
    case Descend => ProcessDirectory(cfg, now, current + [e.name], e, st)
    case IgnoreDir => Done(st)
    case TimestampError => Done(Tally(st, Errors))
    case SkipYoung => Done(Tally(st, Skipped))
    case SkipExisting(_) => Done(Tally(st, Skipped))
    case Move(target) =>
      var (c, fs') := Execute(cfg, e, current + [e.name], target, st.fs);
      Done(State(Bump(st.stats, c), fs'))
  }

  /** `process_directory`: reads the directory `d` found at `current`, aborting the whole walk when
      that fails, and visits its entries in order. */
  function ProcessDirectory(cfg: Config, now: int, current: Path, d: Entry, st: State): (r: Outcome)
    requires d.Dir?
    ensures Below(st.stats, r.st.stats)
    ensures cfg.dryRun ==> r.st.fs == st.fs
    decreases d, 1
  {
    if !d.readable then Aborted(st) else ProcessEntries(cfg, now, current, d.children, st)
  }

  /** The loop of `process_directory` over the entries `es` still to visit. */
  function ProcessEntries(cfg: Config, now: int, current: Path, es: seq<Entry>, st: State): (r: Outcome)
    ensures Below(st.stats, r.st.stats)
    ensures cfg.dryRun ==> r.st.fs == st.fs
    decreases es, 0
  {
    if es == [] then Done(st)
    else
      match Visit(cfg, now, current, es[0], st)
      case Aborted(st') => Aborted(st')
      case Done(st') => ProcessEntries(cfg, now, current, es[1..], st')
  }

  /** `organize_directory`: the walk of the base directory `root` (which the caller has checked is
      a directory) with all counters at zero, on the filesystem `fs`. */
  function Organize(cfg: Config, now: int, root: Entry, fs: set<Path>): (r: Report)
    requires root.Dir?
    ensures cfg.dryRun ==> r.fs == fs
  {
    match ProcessDirectory(cfg, now, [], root, State(Stats(0, 0, 0), fs))
    case Done(st) => Report(Some(st.stats), st.fs)
    case Aborted(st) => Report(None, st.fs)
  }
}
