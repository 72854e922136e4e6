# chronoban in Dafny

A model of chronoban, a small command-line tool that tidies a directory by moving each file into
a sub-directory named after the year and month of its modification (or access) time, `YYYY-MM`,
created directly under the directory being organised (the *base*). The model covers the whole
logic of `src/main.rs`:

- **Bucket names** (`bucket_name.dfy`, module `BucketName`): the recogniser
  `is_year_month_dir`, the formatter `format!("{:04}-{:02}", year, month)`, and the pieces of the
  Rust standard library they rely on, written out over `string`: `str::len` (UTF-8 byte length),
  `str::split` on a character, `str::parse::<u32>` (optional `+`, ASCII digits, no overflow past
  `u32::MAX`) and sign-aware zero padding. The accepted names are proved to be exactly those
  matching `^(\d{4}|\+\d{3})-(\d{2}|\+\d)$`. That set is wider than four digits, `-`, two digits:
  `+123-+1` and `2023-99` are buckets. The formatter's output is recognised exactly when the year
  lies in 0..=9999. It round-trips: both fields parse back to the year and month.
- **The walk** (`organizer.dfy`, module `Organizer`): `organize_directory` / `process_directory`
  as pure functions over an immutable directory tree (`Entry`), threading a `State` made of the
  three-counter `Stats` and the set of paths that exist. Each entry is classified once
  (`Classify`):
  - an unreadable entry, metadata or timestamp;
  - a bucket directly under the base;
  - a directory to descend into or to ignore;
  - a file too young to move;
  - a destination collision;
  - a move.

  A move is then executed: announced in a dry run; in a real run, `create_dir_all` of the bucket
  first and then `rename`. A `read_dir` failure anywhere aborts the walk.
- **Properties** (`organizer_properties.dfy`, module `OrganizerProperties`): the effect of each kind
  of entry on the counters and the path set, and, by induction over the tree, the whole walk
  compared with reference definitions read off the tree alone:
  - `Owed`: how many counter bumps the tree owes;
  - `Blocks`: whether the walk reaches an unreadable directory;
  - `Sources`: which files the walk reaches.
- **Scenarios** (`scenarios.dfy`, module `OrganizerScenarios`): example runs: a file beside the
  bucket it belongs in, a file too young to move, and a run showing that a dry run can report more
  moves than the real run.

Paths are sequences of names relative to the base, so the base is `[]`, and
`path.parent() == Some(base_path)` holds exactly when the directory being listed is the base.
Timestamps are integer nanoseconds since the Unix epoch. Each timestamp carries the local calendar
year and month it falls in. `SystemTime::now()` becomes the parameter `now`. Whatever the
operating system decides is given as data in the tree:
- whether the iterator yields an entry;
- whether its metadata can be read;
- the file's two timestamps;
- whether `read_dir`, `create_dir_all` and `rename` succeed.

## Behaviour worth knowing

- A file dated in the future is never skipped for its age. `duration_since` fails for it, and the
  age filter at src/main.rs:141-146 is then not applied (`FutureFilePasses`). The file can still be
  skipped at the destination check or counted as an error when the move fails.
- A dry run does not always report the counts the real run would, even when no destination exists
  beforehand. The dry-run branch at src/main.rs:164-167 creates nothing, so the destination check at
  src/main.rs:157 never sees an earlier move of the same run. If two files in different
  sub-directories share a name and a month, the dry run counts both as moved; the real run moves one
  and skips the other (`DryRunCanOvercount`). The real run's counts assume each listing is a
  snapshot taken before the walk. A base listing that also showed the bucket created during the walk
  would count that bucket as skipped too (src/main.rs:112-114).
- Bucket recognition at src/main.rs:194-205 accepts more than four digits, `-`, two digits: a
  leading `+` on either field, and any month from `00` to `99` (`YearMonthDirIff`).
- The walk is sequential: src/main.rs:91-189 handles one entry at a time.

## Model

| member | source | states |
|---|---|---|
| BucketName.Utf8Len | src/main.rs:197 | `name.len()` counts UTF-8 bytes: at least the number of characters, and equal to it exactly when every character is ASCII |
| BucketName.Split | src/main.rs:198 | `split('-')` yields one part more than there are separators, and no part contains the separator |
| BucketName.JoinSplit | src/main.rs:198 | gluing the parts back together with the separator gives the original name |
| BucketName.SplitAtFirst | src/main.rs:198 | the text before the first separator is the first part, and the rest is split the same way |
| BucketName.SplitWithoutSeparator | src/main.rs:198 | a text without the separator is a single part |
| BucketName.ParseU32 | src/main.rs:200 | `parse::<u32>` succeeds exactly on an optional `+` followed by one or more ASCII digits whose value is at most `u32::MAX`, and yields that value |
| BucketName.ShortUnsignedParses | src/main.rs:200 | an accepted text of at most nine characters never overflows, so inside a seven-byte name only the syntax matters |
| BucketName.Decimal | src/main.rs:150 | integer formatting writes digits only, without a leading zero, and they read back as the number |
| BucketName.DecimalLength | src/main.rs:150 | the number of digits is exactly what the magnitude needs: at most k below 10^k, more than k from 10^k on |
| BucketName.ZerosValue | src/main.rs:150 | zero padding on the left does not change the value read back |
| BucketName.PaddedReadsBack | src/main.rs:150 | for a width of at most nine, a value of at most `width` digits, zero-padded to `width`, is exactly `width` characters and parses back as itself |
| BucketName.IsYearMonthDir | src/main.rs:194-205 | `is_year_month_dir`: every name it accepts is valid UTF-8 and is four digits (or `+` and three digits), `-`, and two digits (or `+` and one digit) |
| BucketName.YearMonthDirComplete | src/main.rs:194-205 | every name matching that pattern is accepted |
| BucketName.YearMonthDirIff | src/main.rs:194-205 | a UTF-8 name is accepted if and only if it matches the pattern: seven bytes, `-` fifth, a second `-`, a wrong length or an empty part rejects it |
| BucketName.NonUtf8NeverBucket | src/main.rs:195 | a name that is not valid UTF-8 is never a bucket |
| BucketName.AcceptsSignedFields | src/main.rs:199-200 | `+123-+1` is accepted, because `parse::<u32>` takes a leading `+` |
| BucketName.AcceptsAnyMonth | src/main.rs:199-200 | `2023-99` is accepted: the month is not range-checked |
| BucketName.RejectsMalformed | src/main.rs:197-200 | `2023-1` (six bytes), `2023--1` (three parts) and `-023-01` (three parts, an empty one) are rejected |
| BucketName.PadInt | src/main.rs:150 | `{:0w}` of an integer: a non-negative value is a digit string reading back as the value, a negative one is `-` followed by a digit string reading back as the magnitude; the sign counts toward the width, and the length is exactly `w` or, when sign and shortest digits need more room, exactly that many |
| BucketName.FormatBucket | src/main.rs:150 | the bucket name is at least seven characters; exactly seven with `-` fifth for a year in 0..=9999 and a month up to 99; it starts with `-` for a negative year and is longer than seven past 9999 |
| BucketName.FormatBucketLayout | src/main.rs:150 | for every year the name is the padded year, `-`, and the padded month at those positions; with a month up to 99 it is exactly three characters longer than the padded year, which `PadInt` pins |
| BucketName.OutOfRangeBucketNames | src/main.rs:150 | the sign counts toward the width and a wide year gets no extra zero: year -5 and month 3 give `-005-03`, year 12345 and month 3 give `12345-03` |
| BucketName.FormatRoundTrip | src/main.rs:150 | for 0 <= year <= 9999 and month <= 99 the bucket name is seven characters, is recognised, splits into year and month fields, and these parse back to the year and the month |
| BucketName.FormattedRecognisedIff | src/main.rs:150 | the formatted name of a year is recognised as a bucket exactly when the year lies in 0..=9999; a negative year starts with `-` and a larger one is too long |
| Organizer.Bump | src/main.rs:59-63 | counting an outcome raises exactly the named counter by one and leaves the other two alone |
| Organizer.MinAge | src/main.rs:72 | the minimum age is `min_age_days` times 86 400 000 000 000 nanoseconds (one day), and zero exactly when no days are asked for |
| Organizer.DurationSince | src/main.rs:141 | `duration_since` yields the distance from the file time to now, and fails exactly when the file time is in the future |
| Organizer.IsTooYoung | src/main.rs:140-146 | a file is too young exactly when its time is not after now and lies less than the minimum age before it |
| Organizer.Destination | src/main.rs:153-154 | the destination is two components below the base, ending in the file's own name, under a directory whose name has at least seven characters |
| Organizer.Classify | src/main.rs:111-162 | only a directory is descended into; a move is planned only for a file, to a two-component path under the base that does not exist yet |
| Organizer.Execute | src/main.rs:164-187 | a move counts as moved exactly in a dry run or when both `create_dir_all` and `rename` succeed, and as an error otherwise; a dry run changes no path; a counted real move leaves the destination in place |
| Organizer.Visit | src/main.rs:91-189 | handling one entry never lowers a counter, and in a dry run never changes the paths, sub-directories included |
| Organizer.ProcessDirectory | src/main.rs:80-192 | `process_directory` never lowers a counter, and in a dry run never changes the paths |
| Organizer.ProcessEntries | src/main.rs:91-189 | the same for the rest of a listing |
| Organizer.Organize | src/main.rs:65-78 | in a dry run `organize_directory` leaves the filesystem as it found it |
| OrganizerProperties.BaseBucketSkipped | src/main.rs:111-115 | a bucket-named directory directly under the base raises `skipped` by one, changes nothing else and is not descended into, whether or not it is readable |
| OrganizerProperties.NestedBucketIgnored | src/main.rs:117-121 | a bucket-named directory deeper down is neither descended into nor counted |
| OrganizerProperties.PlainDirectory | src/main.rs:117-121 | any other directory changes no counter and is walked, with the same base, exactly when the run is recursive |
| OrganizerProperties.TooYoungIff | src/main.rs:140-146 | a file is skipped as too young if and only if now >= t and now - t < min_age_days * 86400 s |
| OrganizerProperties.AgeBoundary | src/main.rs:142 | for a minimum age of at least one day, a file exactly as old as the minimum passes the filter and one a second younger is skipped |
| OrganizerProperties.FutureFilePasses | src/main.rs:141 | a file dated in the future is never skipped for its age |
| OrganizerProperties.ZeroMinAgeKeepsAll | src/main.rs:72 | with a minimum age of zero days no file is skipped for its age |
| OrganizerProperties.DestinationAtBase | src/main.rs:148-154 | the destination is `base / YYYY-MM / file_name` whatever the current depth, and with a four-digit year the bucket is itself recognised as a bucket |
| OrganizerProperties.CollisionSkips | src/main.rs:156-162 | when the destination exists the file raises `skipped` by one and nothing is created or renamed |
| OrganizerProperties.DryRunCountsMove | src/main.rs:164-167 | in a dry run a file that qualifies raises `moved` by one and the filesystem is unchanged |
| OrganizerProperties.RealRunOutcomes | src/main.rs:168-187 | a `create_dir_all` failure raises `errors` and renames nothing; otherwise the bucket is created, and a rename success moves the file and raises `moved` while a failure raises `errors` |
| OrganizerProperties.UnreadableCountsError | src/main.rs:91-138 | an unreadable entry, unreadable metadata or an unreadable timestamp raises `errors` by one and changes nothing else |
| OrganizerProperties.NonDirectoryCountedOnce | src/main.rs:91-188 | every entry that is not a directory raises exactly one counter by exactly one |
| OrganizerProperties.VisitCounts | src/main.rs:91-189 | a completed visit adds exactly the bumps `Owed` assigns to the entry |
| OrganizerProperties.DirectoryCounts | src/main.rs:88-91 | the same for a whole directory |
| OrganizerProperties.EntriesCounts | src/main.rs:91-189 | the same for the rest of a listing |
| OrganizerProperties.VisitAborts | src/main.rs:117-121 | visiting an entry aborts the walk exactly when it reaches a directory `read_dir` fails on |
| OrganizerProperties.DirectoryAborts | src/main.rs:88-89 | walking a directory aborts exactly when it or a directory it descends into cannot be read |
| OrganizerProperties.EntriesAbort | src/main.rs:91-122 | the rest of a listing aborts exactly when one of its entries reaches an unreadable directory |
| OrganizerProperties.MoveConfined | src/main.rs:169-187 | executing a move adds only the bucket and the destination and removes only the source |
| OrganizerProperties.VisitConfined | src/main.rs:117-187 | a visit only adds bucket directories under the base or paths directly inside them, and only removes paths of files it reaches |
| OrganizerProperties.DirectoryConfined | src/main.rs:117-187 | the same for a whole directory |
| OrganizerProperties.EntriesConfined | src/main.rs:117-187 | the same for the rest of a listing |
| OrganizerProperties.OrganizeSummary | src/main.rs:65-78 | `organize_directory` returns statistics exactly when no walked directory is unreadable; these then sum to what the tree owes; a dry run changes nothing on disk; a real run only adds bucket paths and removes reached files |
| OrganizerScenarios.BucketOfMarch2023 | src/main.rs:150 | March 2023 formats as `2023-03` |
| OrganizerScenarios.ScenarioFileBesideItsBucket | src/main.rs:111-187 | with `a.txt` from March 2023 beside an existing `2023-03`, a plain run moves the file into it and skips the bucket: moved 1, skipped 1, errors 0 |
| OrganizerScenarios.FileBesideItsBucket | src/main.rs:111-187 | the same run for any file name and any recognised bucket name the timestamp formats to (a year in 0..=9999) |
| OrganizerScenarios.ScenarioTooYoung | src/main.rs:140-146 | with a minimum age of 30 days a file 10 days old is skipped and nothing moves |
| OrganizerScenarios.DryRunCanOvercount | src/main.rs:156-187 | two same-named files from the same month in two sub-directories: the recursive dry run reports moved 2, the real run moved 1 and skipped 1, each listing being the snapshot taken before the walk |
| OrganizerScenarios.SharedDestination | src/main.rs:156-187 | the same two runs for any two non-bucket sub-directories, neither named like the bucket the files belong in |

## Left out

- Command-line parsing and its defaults (src/main.rs:8-31). The model takes the parsed options as `Config`.
- The summary and per-entry console messages (src/main.rs:43-54 and the `println!`/`eprintln!` calls). They are output only.
- `canonicalize` and the `is_dir` check on the target (src/main.rs:36-41). `Organize` requires the root to be a directory.
- Real filesystem calls. `read_dir`, `metadata`, `exists`, `create_dir_all` and `rename` are replaced by the tree, the threaded path set and per-entry success flags.
- Consistency between the path set and the tree. The set is not required to list the tree's entries. The success flags do not depend on the set, so a bucket name taken by a plain file is not modelled as making `create_dir_all` fail.
- Listing order and mid-walk changes. Each listing is a fixed snapshot in the tree, so entries created during the walk never show up in a listing. The real order is whatever the operating system returns.
- Local time zone conversion through chrono (src/main.rs:149). Each timestamp carries its local year and month as data. `SystemTime::now()` is the parameter `now`.
- Symbolic links. `path.is_dir()` (src/main.rs:112) follows them and `metadata.is_dir()` (src/main.rs:117) does not; the model treats both as one directory flag.
- MinAge: does not model the `u64` overflow of `min_age_days * 24 * 60 * 60` (src/main.rs:72), which only a minimum age above about 2 * 10^14 days would reach.
- Bump: counters are unbounded naturals; `usize` overflow is not modelled.
- Running the tool twice. The model does not rebuild a directory tree from the path set, so the second-run behaviour is not stated. The facts it would rest on are stated: for a year in 0..=9999, moved files land in recognised buckets (`DestinationAtBase`), and recognised buckets directly under the base are skipped (`BaseBucketSkipped`); a year outside that range gives a bucket that is not recognised (`FormattedRecognisedIff`), which a recursive second run would descend into.
- Concurrency. `src/main.rs` has no concurrent executor, so there is nothing to model.
