/**
  Example runs of the walk: a file beside the bucket it belongs in, a file too young to move, and a
  run showing that a dry run does not always report the counts the real run would. Each directory
  listing is the snapshot in the tree, so a bucket created during the walk is never listed.
*/
module OrganizerScenarios {
  import opened Options
  import opened BucketName
  import opened Organizer
  import opened OrganizerProperties

  // The example runs below take their literal names as parameters fixed by a `requires`
  // (`requires a == Utf8("a.txt")`) instead of writing the literal into the `ensures`: the solver then
  // reasons about one variable and unfolds the definitions over the literal once, which keeps these
  // proofs well inside the resource limit.

  lemma BucketOfMarch2023()
    ensures FormatBucket(2023, 3) == "2023-03"
  {
    assert Decimal(2023) == "2023";
    assert Decimal(3) == "3";
    assert Zeros(1) == "0";
  }

  /** The base holds `a.txt`, last modified in March 2023, and a directory `2023-03`. A plain run
      (not recursive, not dry, no minimum age) moves the file into the existing bucket and skips the
      bucket itself: moved 1, skipped 1, errors 0. */
  lemma ScenarioFileBesideItsBucket(now: int, t: Stamp, a: Name, b: Name, root: Entry)
    requires a == Utf8("a.txt") && b == Utf8("2023-03")
    requires t.year == 2023 && t.month == 3 && t.nanos <= now
    requires root == Dir(Utf8("base"), true, [File(a, Some(t), None, true, true), Dir(b, true, [])])
    ensures Organize(Config(false, 0, false, false), now, root, {[a], [b]})
         == Report(Some(Stats(1, 1, 0)), {[b], [b, a]})
  {
    BucketOfMarch2023();
    March2023IsBucket(b.text);
    assert a.text[0] != b.text[0];
    FileBesideItsBucket(now, t, a, b, root);
  }

  /** The same run for any file name and any bucket name the file's timestamp formats to. */
  lemma FileBesideItsBucket(now: int, t: Stamp, a: Name, b: Name, root: Entry)
    requires a != b && IsYearMonthDir(b) && Utf8(BucketOf(t)) == b && t.nanos <= now
    requires root.Dir? && root.readable && root.children == [File(a, Some(t), None, true, true), Dir(b, true, [])]
    ensures Organize(Config(false, 0, false, false), now, root, {[a], [b]})
         == Report(Some(Stats(1, 1, 0)), {[b], [b, a]})
  {
    var cfg := Config(false, 0, false, false);
    var fs0, fs1 := {[a], [b]}, {[b], [b, a]};
    var file, bucket := root.children[0], root.children[1];
    var st0, st1, st2 := State(Stats(0, 0, 0), fs0), State(Stats(1, 0, 0), fs1), State(Stats(1, 1, 0), fs1);
    MoveBesideBucket(cfg, now, file, t, a, b);
    BaseBucketSkipped(cfg, now, bucket, st1);
    assert Visit(cfg, now, [], bucket, st1) == Done(st2);
    EntriesStep(cfg, now, [], root.children[1..], st1, st2, st2);
    EntriesStep(cfg, now, [], root.children, st0, st1, st2);
  }

  /** The first step of that run: the file moves into the existing bucket. */
  lemma MoveBesideBucket(cfg: Config, now: int, file: Entry, t: Stamp, a: Name, b: Name)
    requires cfg == Config(false, 0, false, false)
    requires a != b && Utf8(BucketOf(t)) == b && t.nanos <= now
    requires file == File(a, Some(t), None, true, true)
    ensures Visit(cfg, now, [], file, State(Stats(0, 0, 0), {[a], [b]}))
         == Done(State(Stats(1, 0, 0), {[b], [b, a]}))
  {
    var st0 := State(Stats(0, 0, 0), {[a], [b]});
    var src, target := [] + [a], Destination(t, a);
    assert src == [a] && target == [b, a];
    RealRunOutcomes(cfg, now, [], file, st0, t);
    assert Visit(cfg, now, [], file, st0) == Done(State(Bump(st0.stats, Moved), st0.fs + {[b]} - {src} + {target}));
    MovedIntoBucket(a, b);
  }

  lemma MovedIntoBucket(a: Name, b: Name)
    requires a != b
    ensures {[a], [b]} + {[b]} - {[a]} + {[b, a]} == {[b], [b, a]}
  {
  }

  /** The loop moves on to the next entry once the current one is done. */
  lemma EntriesStep(cfg: Config, now: int, current: Path, es: seq<Entry>, st: State, mid: State, last: State)
    requires es != [] && Visit(cfg, now, current, es[0], st) == Done(mid)
    requires ProcessEntries(cfg, now, current, es[1..], mid) == Done(last)
    ensures ProcessEntries(cfg, now, current, es, st) == Done(last)
  {
  }

  /** `2023-03` is a bucket name. */
  lemma March2023IsBucket(s: string)
    requires s == "2023-03"
    ensures IsYearMonthDir(Utf8(s))
  {
    YearMonthDirComplete(s);
  }

  /** With a minimum age of 30 days, a file last modified 10 days ago is skipped and nothing moves. */
  lemma ScenarioTooYoung(now: int, t: Stamp, a: Name, root: Entry, fs: set<Path>)
    requires t.nanos == now - 10 * SecondsPerDay * NanosPerSecond
    requires root == Dir(Utf8("base"), true, [File(a, Some(t), None, true, true)])
    ensures Organize(Config(false, 30, false, false), now, root, fs) == Report(Some(Stats(0, 1, 0)), fs)
  {
    var cfg := Config(false, 30, false, false);
    assert IsTooYoung(now, t.nanos, MinAge(cfg));
    var st0, st1 := State(Stats(0, 0, 0), fs), State(Stats(0, 1, 0), fs);
    assert Visit(cfg, now, [], root.children[0], st0) == Done(st1);
    EntriesStep(cfg, now, [], root.children, st0, st1, st1);
  }

  /** Two files named `a.txt` with the same month, in subdirectories `x` and `y` of a base with no
      bucket yet. A recursive dry run reports both as moved, because it never creates the first
      destination; the real run moves the first and then finds the destination taken and skips the
      second. So the dry run's counts match the real run's only when no two files share a
      destination. The real run's counts rest on the base listing being the snapshot taken before
      the walk: a listing that showed the bucket created during the walk would count it as
      skipped too. */
  lemma DryRunCanOvercount(now: int, t: Stamp, a: Name, x: Name, y: Name, root: Entry)
    requires a == Utf8("a.txt") && x == Utf8("x") && y == Utf8("y")
    requires t.nanos <= now
    requires root == Dir(Utf8("base"), true, [
      Dir(x, true, [File(a, Some(t), None, true, true)]),
      Dir(y, true, [File(a, Some(t), None, true, true)])])
    ensures Organize(Config(true, 0, true, false), now, root, {}).stats == Some(Stats(2, 0, 0))
    ensures Organize(Config(false, 0, true, false), now, root, {}).stats == Some(Stats(1, 1, 0))
  {
    assert Utf8Len(x.text) == 1 && Utf8Len(y.text) == 1;
    assert |BucketOf(t)| >= 7;
    SharedDestination(now, t, a, x, y, root);
  }

  /** The same runs for any two non-bucket subdirectories, neither named like the bucket. */
  lemma SharedDestination(now: int, t: Stamp, a: Name, x: Name, y: Name, root: Entry)
    requires !IsYearMonthDir(x) && !IsYearMonthDir(y)
    requires x != Utf8(BucketOf(t)) && y != Utf8(BucketOf(t)) && t.nanos <= now
    requires root.Dir? && root.readable && root.children == [
      Dir(x, true, [File(a, Some(t), None, true, true)]),
      Dir(y, true, [File(a, Some(t), None, true, true)])]
    ensures Organize(Config(true, 0, true, false), now, root, {}).stats == Some(Stats(2, 0, 0))
    ensures Organize(Config(false, 0, true, false), now, root, {}).stats == Some(Stats(1, 1, 0))
  {
    SharedDestinationDryRun(Config(true, 0, true, false), now, t, a, x, y, root);
    SharedDestinationRealRun(Config(false, 0, true, false), now, t, a, x, y, root);
  }

  /** The dry run of `SharedDestination`: both files would move, nothing changes on disk. */
  lemma SharedDestinationDryRun(cfg: Config, now: int, t: Stamp, a: Name, x: Name, y: Name, root: Entry)
    requires cfg == Config(true, 0, true, false)
    requires !IsYearMonthDir(x) && !IsYearMonthDir(y) && t.nanos <= now
    requires root.Dir? && root.readable && root.children == [
      Dir(x, true, [File(a, Some(t), None, true, true)]),
      Dir(y, true, [File(a, Some(t), None, true, true)])]
    ensures ProcessDirectory(cfg, now, [], root, State(Stats(0, 0, 0), {})) == Done(State(Stats(2, 0, 0), {}))
  {
    var dx, dy := root.children[0], root.children[1];
    var f := dx.children[0];
    assert dy.children[0] == f;
    var zero, d1, d2 := State(Stats(0, 0, 0), {}), State(Stats(1, 0, 0), {}), State(Stats(2, 0, 0), {});
    DryRunCountsMove(cfg, now, [x], f, zero, t);
    SubdirectoryOfOneFile(cfg, now, dx, zero, d1, t);
    DryRunCountsMove(cfg, now, [y], f, d1, t);
    SubdirectoryOfOneFile(cfg, now, dy, d1, d2, t);
    EntriesStep(cfg, now, [], root.children[1..], d1, d2, d2);
    EntriesStep(cfg, now, [], root.children, zero, d1, d2);
  }

  /** The real run of `SharedDestination`: the first file moves, the second finds its destination
      taken. */
  lemma SharedDestinationRealRun(cfg: Config, now: int, t: Stamp, a: Name, x: Name, y: Name, root: Entry)
    requires cfg == Config(false, 0, true, false)
    requires !IsYearMonthDir(x) && !IsYearMonthDir(y)
    requires x != Utf8(BucketOf(t)) && y != Utf8(BucketOf(t)) && t.nanos <= now
    requires root.Dir? && root.readable && root.children == [
      Dir(x, true, [File(a, Some(t), None, true, true)]),
      Dir(y, true, [File(a, Some(t), None, true, true)])]
    ensures ProcessDirectory(cfg, now, [], root, State(Stats(0, 0, 0), {})).Done?
    ensures ProcessDirectory(cfg, now, [], root, State(Stats(0, 0, 0), {})).st.stats == Stats(1, 1, 0)
  {
    var dx, dy := root.children[0], root.children[1];
    var f := dx.children[0];
    assert dy.children[0] == f;
    var target := Destination(t, a);
    assert target != [x, a];
    var fs1 := {} + {[Utf8(BucketOf(t))]} - {[x, a]} + {target};
    var zero, r1, r2 := State(Stats(0, 0, 0), {}), State(Stats(1, 0, 0), fs1), State(Stats(1, 1, 0), fs1);
    RealRunOutcomes(cfg, now, [x], f, zero, t);
    SubdirectoryOfOneFile(cfg, now, dx, zero, r1, t);
    CollisionSkips(cfg, now, [y], f, r1, t);
    SubdirectoryOfOneFile(cfg, now, dy, r1, r2, t);
    EntriesStep(cfg, now, [], root.children[1..], r1, r2, r2);
    EntriesStep(cfg, now, [], root.children, zero, r1, r2);
  }

  /** Visiting, in a recursive run, a plain directory at the base that holds one file. */
  lemma SubdirectoryOfOneFile(cfg: Config, now: int, d: Entry, st: State, st': State, t: Stamp)
    requires cfg.recursive && d.Dir? && d.readable && !IsYearMonthDir(d.name) && |d.children| == 1
    requires Visit(cfg, now, [d.name], d.children[0], st) == Done(st')
    ensures Visit(cfg, now, [], d, st) == Done(st')
  {
    PlainDirectory(cfg, now, [], d, st);
    assert [] + [d.name] == [d.name];
    EntriesStep(cfg, now, [d.name], d.children, st, st', st');
  }
}
