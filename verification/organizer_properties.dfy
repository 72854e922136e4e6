/**
  Properties of the walk in `Organizer`: how each kind of entry changes the counters and the
  filesystem, and, by induction over the directory tree, what the whole walk does. The whole-walk
  statements compare the walk with reference definitions that are read off the tree alone
  (`Owed`, `Blocks`, `Sources`), independently of timestamps and of the state threaded through.
*/
module OrganizerProperties {
  import opened Options
  import opened BucketName
  import opened Organizer

  // ---------------------------------------------------------------------------------------------
  // Directories

  /** A bucket directory directly inside the base bumps `skipped` by one and changes nothing else.
      The result does not depend on whether the directory can be read or on what it holds: it is
      never descended into. */
  lemma BaseBucketSkipped(cfg: Config, now: int, e: Entry, st: State)
    requires e.Dir? && IsYearMonthDir(e.name)
    ensures Visit(cfg, now, [], e, st) == Done(State(Bump(st.stats, Skipped), st.fs))
  {
  }

  /** A bucket-shaped directory deeper in the tree is neither descended into nor counted. */
  lemma NestedBucketIgnored(cfg: Config, now: int, current: Path, e: Entry, st: State)
    requires e.Dir? && IsYearMonthDir(e.name) && current != []
    ensures Visit(cfg, now, current, e, st) == Done(st)
  {
  }

  /** Any other directory changes no counter; it is walked, with the same base, exactly when the
      run is recursive. */
  lemma PlainDirectory(cfg: Config, now: int, current: Path, e: Entry, st: State)
    requires e.Dir? && !IsYearMonthDir(e.name)
    ensures !cfg.recursive ==> Visit(cfg, now, current, e, st) == Done(st)
    ensures cfg.recursive ==> Visit(cfg, now, current, e, st) == ProcessDirectory(cfg, now, current + [e.name], e, st)
  {
  }

  // ---------------------------------------------------------------------------------------------
  // The age filter

  /** A file is skipped as too young exactly when its timestamp is not in the future and it is
      younger than `min_age_days` whole days. */
  lemma TooYoungIff(cfg: Config, now: int, current: Path, e: Entry, fs: set<Path>, t: Stamp)
    requires e.File? && ChosenStamp(cfg, e) == Some(t)
    ensures Classify(cfg, now, current, e, fs) == SkipYoung
        <==> t.nanos <= now && now - t.nanos < cfg.minAgeDays * 86400 * 1_000_000_000
  {
  }

  /** A file exactly as old as the minimum passes the filter, and one a second younger does not. */
  lemma AgeBoundary(cfg: Config, now: int, current: Path, e: Entry, fs: set<Path>, t: Stamp)
    requires e.File? && ChosenStamp(cfg, e) == Some(t) && cfg.minAgeDays >= 1
    ensures now - t.nanos == MinAge(cfg) ==> Classify(cfg, now, current, e, fs) != SkipYoung
    ensures now - t.nanos == MinAge(cfg) - NanosPerSecond ==> Classify(cfg, now, current, e, fs) == SkipYoung
  {
  }

  /** A file dated in the future passes the filter, whatever the minimum age. */
  lemma FutureFilePasses(cfg: Config, now: int, current: Path, e: Entry, fs: set<Path>, t: Stamp)
    requires e.File? && ChosenStamp(cfg, e) == Some(t) && now < t.nanos
    ensures Classify(cfg, now, current, e, fs) != SkipYoung
  {
  }

  /** With a minimum age of zero days no file is skipped for its age. */
  lemma ZeroMinAgeKeepsAll(cfg: Config, now: int, current: Path, e: Entry, fs: set<Path>)
    requires e.File? && cfg.minAgeDays == 0
    ensures Classify(cfg, now, current, e, fs) != SkipYoung
  {
  }

  // ---------------------------------------------------------------------------------------------
  // Destination and execution

  /** A file old enough goes to `base / YYYY-MM / file_name` whatever directory it sits in: the
      decision depends on its name, timestamp and the existing paths, never on its depth. For a
      four-digit year the bucket is itself recognised as a bucket, so a later walk skips it. */
  lemma DestinationAtBase(cfg: Config, now: int, current: Path, e: Entry, fs: set<Path>, t: Stamp)
    requires e.File? && ChosenStamp(cfg, e) == Some(t) && !IsTooYoung(now, t.nanos, MinAge(cfg))
    ensures var target := [Utf8(FormatBucket(t.year, t.month)), e.name];
      Classify(cfg, now, current, e, fs) == (if target in fs then SkipExisting(target) else Move(target))
    ensures Classify(cfg, now, current, e, fs) == Classify(cfg, now, [], e, fs)
    ensures 0 <= t.year <= 9999 ==> IsYearMonthDir(Utf8(FormatBucket(t.year, t.month)))
  {
    if 0 <= t.year <= 9999 {
      FormatRoundTrip(t.year, t.month);
    }
  }

  /** When the destination already exists the file is skipped: nothing is created or renamed. */
  lemma CollisionSkips(cfg: Config, now: int, current: Path, e: Entry, st: State, t: Stamp)
    requires e.File? && ChosenStamp(cfg, e) == Some(t) && !IsTooYoung(now, t.nanos, MinAge(cfg))
    requires Destination(t, e.name) in st.fs
    ensures Visit(cfg, now, current, e, st) == Done(State(Bump(st.stats, Skipped), st.fs))
  {
  }

  /** In a dry run a file that would be moved bumps `moved` and the filesystem stays as it is. */
  lemma DryRunCountsMove(cfg: Config, now: int, current: Path, e: Entry, st: State, t: Stamp)
    requires cfg.dryRun
    requires e.File? && ChosenStamp(cfg, e) == Some(t) && !IsTooYoung(now, t.nanos, MinAge(cfg))
    requires Destination(t, e.name) !in st.fs
    ensures Visit(cfg, now, current, e, st) == Done(State(Bump(st.stats, Moved), st.fs))
  {
    assert Classify(cfg, now, current, e, st.fs) == Move(Destination(t, e.name));
  }

  /** In a real run: a failed `create_dir_all` bumps `errors` and renames nothing; otherwise the
      bucket exists afterwards, and a successful rename takes the file from its place to the
      destination and bumps `moved`, while a failed one bumps `errors`. */
  lemma RealRunOutcomes(cfg: Config, now: int, current: Path, e: Entry, st: State, t: Stamp)
    requires !cfg.dryRun
    requires e.File? && ChosenStamp(cfg, e) == Some(t) && !IsTooYoung(now, t.nanos, MinAge(cfg))
    requires Destination(t, e.name) !in st.fs
    ensures var r := Visit(cfg, now, current, e, st);
      var bucket := [Utf8(BucketOf(t))];
      var src, target := current + [e.name], Destination(t, e.name);
      && r.Done?
      && (!e.mkdirOk ==> r.st == State(Bump(st.stats, Errors), st.fs))
      && (e.mkdirOk && !e.renameOk ==> r.st == State(Bump(st.stats, Errors), st.fs + {bucket}))
      && (e.mkdirOk && e.renameOk ==> r.st == State(Bump(st.stats, Moved), st.fs + {bucket} - {src} + {target}))
      && (e.mkdirOk && e.renameOk ==> target in r.st.fs && (src != bucket ==> bucket in r.st.fs))
      && (e.mkdirOk && e.renameOk && src != target ==> src !in r.st.fs)
  {
    var src, target := current + [e.name], Destination(t, e.name);
    assert Classify(cfg, now, current, e, st.fs) == Move(target);
    var x := Execute(cfg, e, src, target, st.fs);
    assert Visit(cfg, now, current, e, st) == Done(State(Bump(st.stats, x.0), x.1));
    assert target[..1] == [Utf8(BucketOf(t))];
  }

  /** An entry the iterator could not produce, an entry without metadata, and a file whose chosen
      timestamp cannot be read each bump `errors` and change nothing else. */
  lemma UnreadableCountsError(cfg: Config, now: int, current: Path, e: Entry, st: State)
    requires e.BadEntry? || e.NoMetadata? || (e.File? && ChosenStamp(cfg, e).None?)
    ensures Visit(cfg, now, current, e, st) == Done(State(Bump(st.stats, Errors), st.fs))
  {
  }

  /** Every entry that is not a directory bumps exactly one counter by exactly one. */
  lemma NonDirectoryCountedOnce(cfg: Config, now: int, current: Path, e: Entry, st: State)
    requires !e.Dir?
    ensures Visit(cfg, now, current, e, st).Done?
    ensures Total(Visit(cfg, now, current, e, st).st.stats) == Total(st.stats) + 1
  {
    if e.BadEntry? || e.NoMetadata? || ChosenStamp(cfg, e).None? {
      UnreadableCountsError(cfg, now, current, e, st);
    } else {
      var t := ChosenStamp(cfg, e).value;
      if IsTooYoung(now, t.nanos, MinAge(cfg)) {
        assert Classify(cfg, now, current, e, st.fs) == SkipYoung;
      } else if Destination(t, e.name) in st.fs {
        CollisionSkips(cfg, now, current, e, st, t);
      } else if cfg.dryRun {
        DryRunCountsMove(cfg, now, current, e, st, t);
      } else {
        RealRunOutcomes(cfg, now, current, e, st, t);
      }
    }
  }

  // ---------------------------------------------------------------------------------------------
  // Reference definitions read off the tree

  /** How many counter bumps visiting `e` at `current` owes when the walk completes: one for every
      entry that is not a directory and for every bucket directly under the base, plus what every
      directory walked into owes. */
  function Owed(cfg: Config, current: Path, e: Entry): nat
    decreases e
  {
    match e
    case Dir(name, _, children) =>
      if IsBaseBucket(current, name) then 1
      else if Descends(cfg, name) then OwedAll(cfg, current + [name], children)
      else 0
    case _ => 1
  }

  function OwedAll(cfg: Config, current: Path, es: seq<Entry>): nat
    decreases es
  {
    if es == [] then 0 else Owed(cfg, current, es[0]) + OwedAll(cfg, current, es[1..])
  }

  /** Whether visiting `e` reaches a directory that cannot be read. */
  predicate Blocks(cfg: Config, e: Entry)
  {
    e.Dir? && Descends(cfg, e.name) && (!e.readable || BlocksAny(cfg, e.children))
  }

  predicate BlocksAny(cfg: Config, es: seq<Entry>)
  {
    es != [] && (Blocks(cfg, es[0]) || BlocksAny(cfg, es[1..]))
  }

  /** The paths of the files that visiting `e` at `current` reaches. */
  function Sources(cfg: Config, current: Path, e: Entry): set<Path>
    decreases e
  {
    match e
    case File(name, _, _, _, _) => {current + [name]}
    case Dir(name, _, children) =>
      if Descends(cfg, name) then SourcesAll(cfg, current + [name], children) else {}
    case _ => {}
  }

  function SourcesAll(cfg: Config, current: Path, es: seq<Entry>): set<Path>
    decreases es
  {
    if es == [] then {} else Sources(cfg, current, es[0]) + SourcesAll(cfg, current, es[1..])
  }

  /** A bucket directory directly under the base, or a path directly inside one. */
  ghost predicate IsBucketPath(p: Path)
  {
    (|p| == 1 || |p| == 2) && exists t: Stamp :: p[0] == Utf8(BucketOf(t))
  }

  /** Going from `before` to `after`, every path that appeared is a bucket path, and every path that
      disappeared is one of `sources`. */
  ghost predicate Confined(before: set<Path>, after: set<Path>, sources: set<Path>)
  {
    && (forall p :: p in after && p !in before ==> IsBucketPath(p))
    && (forall p :: p in before && p !in after ==> p in sources)
  }

  // ---------------------------------------------------------------------------------------------
  // Counters

  /** A completed walk of `e` has added exactly what `e` owes to the counters. */
  lemma {:induction false} VisitCounts(cfg: Config, now: int, current: Path, e: Entry, st: State)
    ensures Visit(cfg, now, current, e, st).Done? ==>
      Total(Visit(cfg, now, current, e, st).st.stats) == Total(st.stats) + Owed(cfg, current, e)
    decreases e, 2
  {
    if !e.Dir? {
      NonDirectoryCountedOnce(cfg, now, current, e, st);
    } else if Classify(cfg, now, current, e, st.fs).Descend? {
      DirectoryCounts(cfg, now, current + [e.name], e, st);
    }
  }

  lemma {:induction false} DirectoryCounts(cfg: Config, now: int, current: Path, d: Entry, st: State)
    requires d.Dir?
    ensures ProcessDirectory(cfg, now, current, d, st).Done? ==>
      Total(ProcessDirectory(cfg, now, current, d, st).st.stats) == Total(st.stats) + OwedAll(cfg, current, d.children)
    decreases d, 1
  {
    if d.readable {
      EntriesCounts(cfg, now, current, d.children, st);
    }
  }

  lemma {:induction false} EntriesCounts(cfg: Config, now: int, current: Path, es: seq<Entry>, st: State)
    ensures ProcessEntries(cfg, now, current, es, st).Done? ==>
      Total(ProcessEntries(cfg, now, current, es, st).st.stats) == Total(st.stats) + OwedAll(cfg, current, es)
    decreases es, 0
  {
    if es != [] {
      VisitCounts(cfg, now, current, es[0], st);
      var r := Visit(cfg, now, current, es[0], st);
      if r.Done? {
        EntriesCounts(cfg, now, current, es[1..], r.st);
      }
    }
  }

  // ---------------------------------------------------------------------------------------------
  // Aborting

  /** The walk of `e` aborts exactly when it reaches a directory `read_dir` fails on. */
  lemma {:induction false} VisitAborts(cfg: Config, now: int, current: Path, e: Entry, st: State)
    ensures Visit(cfg, now, current, e, st).Aborted? <==> Blocks(cfg, e)
    decreases e, 2
  {
    if Classify(cfg, now, current, e, st.fs).Descend? {
      DirectoryAborts(cfg, now, current + [e.name], e, st);
    }
  }

  lemma {:induction false} DirectoryAborts(cfg: Config, now: int, current: Path, d: Entry, st: State)
    requires d.Dir?
    ensures ProcessDirectory(cfg, now, current, d, st).Aborted? <==> !d.readable || BlocksAny(cfg, d.children)
    decreases d, 1
  {
    if d.readable {
      EntriesAbort(cfg, now, current, d.children, st);
    }
  }

  lemma {:induction false} EntriesAbort(cfg: Config, now: int, current: Path, es: seq<Entry>, st: State)
    ensures ProcessEntries(cfg, now, current, es, st).Aborted? <==> BlocksAny(cfg, es)
    decreases es, 0
  {
    if es != [] {
      VisitAborts(cfg, now, current, es[0], st);
      var r := Visit(cfg, now, current, es[0], st);
      if r.Done? {
        EntriesAbort(cfg, now, current, es[1..], r.st);
      }
    }
  }

  // ---------------------------------------------------------------------------------------------
  // The filesystem

  /** Confinement composes along the walk. */
  lemma ConfinedTrans(a: set<Path>, b: set<Path>, c: set<Path>, s1: set<Path>, s2: set<Path>)
    requires Confined(a, b, s1) && Confined(b, c, s2)
    ensures Confined(a, c, s1 + s2)
  {
  }

  /** A real run only ever creates bucket directories under the base and paths inside them, and
      only ever removes the paths of files it reached: directories and everything it does not
      reach stay where they are. */
  lemma {:induction false} VisitConfined(cfg: Config, now: int, current: Path, e: Entry, st: State)
    ensures Confined(st.fs, Visit(cfg, now, current, e, st).st.fs, Sources(cfg, current, e))
    decreases e, 2
  {
    var a := Classify(cfg, now, current, e, st.fs);
    if a.Descend? {
      DirectoryConfined(cfg, now, current + [e.name], e, st);
    } else if a.Move? {
      MoveConfined(cfg, current, e, a.target, st.fs, ChosenStamp(cfg, e).value);
      VisitMoveStep(cfg, now, current, e, st);
    } else {
      VisitStayStep(cfg, now, current, e, st);
    }
  }

  /** A planned move leaves the paths `Execute` produces. */
  lemma VisitMoveStep(cfg: Config, now: int, current: Path, e: Entry, st: State)
    requires Classify(cfg, now, current, e, st.fs).Move?
    ensures Visit(cfg, now, current, e, st).st.fs
         == Execute(cfg, e, current + [e.name], Classify(cfg, now, current, e, st.fs).target, st.fs).1
  {
    var t := ChosenStamp(cfg, e).value;
    if cfg.dryRun {
      DryRunCountsMove(cfg, now, current, e, st, t);
    } else {
      RealRunOutcomes(cfg, now, current, e, st, t);
    }
  }

  /** Every entry that is neither moved nor descended into leaves the paths alone. */
  lemma VisitStayStep(cfg: Config, now: int, current: Path, e: Entry, st: State)
    requires !Classify(cfg, now, current, e, st.fs).Move? && !Classify(cfg, now, current, e, st.fs).Descend?
    ensures Visit(cfg, now, current, e, st).st.fs == st.fs
  {
  }

  /** Executing one move adds at most its bucket and its destination and removes at most its source. */
  lemma MoveConfined(cfg: Config, current: Path, e: Entry, target: Path, fs: set<Path>, t: Stamp)
    requires e.File? && target == Destination(t, e.name)
    ensures Confined(fs, Execute(cfg, e, current + [e.name], target, fs).1, {current + [e.name]})
  {
    assert target[..1] == [Utf8(BucketOf(t))];
    assert IsBucketPath(target[..1]) && IsBucketPath(target);
  }

  lemma {:induction false} DirectoryConfined(cfg: Config, now: int, current: Path, d: Entry, st: State)
    requires d.Dir?
    ensures Confined(st.fs, ProcessDirectory(cfg, now, current, d, st).st.fs, SourcesAll(cfg, current, d.children))
    decreases d, 1
  {
    if d.readable {
      EntriesConfined(cfg, now, current, d.children, st);
    }
  }

  lemma {:induction false} EntriesConfined(cfg: Config, now: int, current: Path, es: seq<Entry>, st: State)
    ensures Confined(st.fs, ProcessEntries(cfg, now, current, es, st).st.fs, SourcesAll(cfg, current, es))
    decreases es, 0
  {
    if es != [] {
      VisitConfined(cfg, now, current, es[0], st);
      var r := Visit(cfg, now, current, es[0], st);
      if r.Done? {
        EntriesConfined(cfg, now, current, es[1..], r.st);
        ConfinedTrans(st.fs, r.st.fs, ProcessEntries(cfg, now, current, es[1..], r.st).st.fs,
          Sources(cfg, current, es[0]), SourcesAll(cfg, current, es[1..]));
      }
    }
  }

  // ---------------------------------------------------------------------------------------------
  // The run as a whole

  /** `organize_directory` returns statistics exactly when no directory it walks is unreadable; the
      three counters then add up to the entries the tree owes; a dry run changes nothing on disk;
      and a real run only adds bucket paths and only removes the files it reached. */
  lemma OrganizeSummary(cfg: Config, now: int, root: Entry, fs: set<Path>)
    requires root.Dir?
    ensures Organize(cfg, now, root, fs).stats.Some? <==> root.readable && !BlocksAny(cfg, root.children)
    ensures Organize(cfg, now, root, fs).stats.Some? ==>
      Total(Organize(cfg, now, root, fs).stats.value) == OwedAll(cfg, [], root.children)
    ensures cfg.dryRun ==> Organize(cfg, now, root, fs).fs == fs
    ensures Confined(fs, Organize(cfg, now, root, fs).fs, SourcesAll(cfg, [], root.children))
  {
    var st := State(Stats(0, 0, 0), fs);
    DirectoryCounts(cfg, now, [], root, st);
    DirectoryAborts(cfg, now, [], root, st);
    DirectoryConfined(cfg, now, [], root, st);
  }
}
