/**
  The names of bucket directories: the `YYYY-MM` recogniser `is_year_month_dir` and the
  `format!("{:04}-{:02}", year, month)` that produces such names, together with the pieces of
  the Rust standard library they rest on (`str::len`, `str::split`, `str::parse::<u32>` and
  zero-padded integer formatting), each written out over `string`.
*/
module BucketName {
  import opened Options

  /** The last component of a path as the operating system reports it: valid UTF-8 text, or raw
      bytes that are not valid UTF-8 (for which `OsStr::to_str` fails). `NonUtf8` is used only for
      byte sequences that are not valid UTF-8, so every name has one representation; UTF-8
      validation itself is not modelled, so this is a convention of the model, not a checked fact. */
  datatype Name = Utf8(text: string) | NonUtf8(bytes: seq<bv8>)

  /** `u32::MAX`. */
  const U32Max: nat := 0xFFFF_FFFF

  predicate IsAscii(c: char) {
    c as int < 0x80
  }

  predicate IsDigit(c: char) {
    '0' <= c <= '9'
  }

  predicate AllDigits(s: string) {
    forall i :: 0 <= i < |s| ==> IsDigit(s[i])
  }

  function DigitValue(c: char): (d: nat)
    requires IsDigit(c)
    ensures d < 10
  {
    c as int - '0' as int
  }

  function DigitChar(d: nat): (c: char)
    requires d < 10
    ensures IsDigit(c) && DigitValue(c) == d
  {
    ('0' as int + d) as char
  }

  function Pow10(k: nat): (p: nat)
    ensures p >= 1
  {
    if k == 0 then 1 else 10 * Pow10(k - 1)
  }

  // ---------------------------------------------------------------------------------------------
  // str::len

  /** Number of bytes the UTF-8 encoding of `c` occupies. */
  function CharUtf8Len(c: char): (n: nat)
    ensures 1 <= n <= 4
    ensures n == 1 <==> IsAscii(c)
  {
    if c as int < 0x80 then 1
    else if c as int < 0x800 then 2
    else if c as int < 0x10000 then 3
    else 4
  }

  /** `str::len`: the length of `s` in UTF-8 bytes, which equals its number of characters exactly
      when every character is ASCII. */
  function Utf8Len(s: string): (n: nat)
    ensures n >= |s|
    ensures n == |s| <==> forall i :: 0 <= i < |s| ==> IsAscii(s[i])
  {
    if |s| == 0 then 0
    else
      var n := CharUtf8Len(s[0]) + Utf8Len(s[1..]);
      assert forall i :: 1 <= i < |s| ==> s[i] == s[1..][i - 1];
      n
  }

  // ---------------------------------------------------------------------------------------------
  // str::split with a character separator

  /** `s.split(sep).collect()`: the maximal runs of `s` between occurrences of `sep`, empty runs
      included, so that there is always one part more than there are separators. */
  function Split(s: string, sep: char): (parts: seq<string>)
    ensures |parts| == multiset(s)[sep] + 1
    ensures forall i :: 0 <= i < |parts| ==> sep !in parts[i]
  {
    if |s| == 0 then [""]
    else
      var rest := Split(s[1..], sep);
      assert s == [s[0]] + s[1..];
      if s[0] == sep then [""] + rest
      else [[s[0]] + rest[0]] + rest[1..]
  }

  /** The inverse of `Split`: the parts glued back together with `sep` between them. */
  function Join(parts: seq<string>, sep: char): string
    requires |parts| >= 1
  {
    if |parts| == 1 then parts[0] else parts[0] + [sep] + Join(parts[1..], sep)
  }

  /** Extending the first part by one character extends the joined text by that character. */
  lemma JoinPrepend(c: char, parts: seq<string>, sep: char)
    requires |parts| >= 1
    ensures Join([[c] + parts[0]] + parts[1..], sep) == [c] + Join(parts, sep)
  {
    var q := [[c] + parts[0]] + parts[1..];
    assert q[1..] == parts[1..];
  }

  /** Splitting loses nothing: joining the parts with the separator gives back the text. */
  lemma {:induction false} JoinSplit(s: string, sep: char)
    ensures Join(Split(s, sep), sep) == s
  {
    if |s| > 0 {
      JoinSplit(s[1..], sep);
      var rest := Split(s[1..], sep);
      assert s == [s[0]] + s[1..];
      if s[0] == sep {
        assert ([""] + rest)[1..] == rest;
      } else {
        JoinPrepend(s[0], rest, sep);
      }
    }
  }

  /** A text without the separator is a single part. */
  lemma {:induction false} SplitWithoutSeparator(s: string, sep: char)
    requires sep !in s
    ensures Split(s, sep) == [s]
  {
    if |s| > 0 {
      assert sep !in s[1..] by {
        forall i | 0 <= i < |s[1..]| ensures s[1..][i] != sep {
          assert s[1..][i] == s[i + 1];
        }
      }
      SplitWithoutSeparator(s[1..], sep);
      assert s[0] != sep;
      assert [s[0]] + s[1..] == s;
    }
  }

  /** A separator-free prefix ending at the first separator becomes the first part. */
  lemma {:induction false} SplitAtFirst(a: string, sep: char, b: string)
    requires sep !in a
    ensures Split(a + [sep] + b, sep) == [a] + Split(b, sep)
  {
    var s := a + [sep] + b;
    if |a| == 0 {
      assert s[1..] == b;
    } else {
      assert s[1..] == a[1..] + [sep] + b;
      assert sep !in a[1..] by {
        forall i | 0 <= i < |a[1..]| ensures a[1..][i] != sep {
          assert a[1..][i] == a[i + 1];
        }
      }
      SplitAtFirst(a[1..], sep, b);
      assert [a[0]] + a[1..] == a;
    }
  }

  // ---------------------------------------------------------------------------------------------
  // str::parse::<u32>

  /** Decimal value of a string of digits, most significant digit first. */
  function DigitsValue(s: string): nat
    requires AllDigits(s)
  {
    if |s| == 0 then 0 else 10 * DigitsValue(s[..|s| - 1]) + DigitValue(s[|s| - 1])
  }

  /** The text `parse::<u32>` accepts, leaving the range aside: one or more ASCII digits,
      optionally preceded by a single '+'. */
  predicate UnsignedSyntax(s: string) {
    (|s| >= 1 && AllDigits(s)) || (|s| >= 2 && s[0] == '+' && AllDigits(s[1..]))
  }

  /** The digits of an accepted text, without its optional '+'. */
  function UnsignedDigits(s: string): (d: string)
    requires UnsignedSyntax(s)
    ensures AllDigits(d) && 1 <= |d| <= |s|
  {
    if s[0] == '+' then s[1..] else s
  }

  /** `str::parse::<u32>`, following the standard library's `from_str_radix` for an unsigned type:
      the empty text and a lone sign are errors, a leading '+' is skipped (a leading '-' is an
      invalid digit for an unsigned type), every remaining character must be an ASCII digit, and
      the value must not exceed `u32::MAX`. */
  function ParseU32(s: string): (r: Option<nat>)
    ensures r.Some? <==> UnsignedSyntax(s) && DigitsValue(UnsignedDigits(s)) <= U32Max
    ensures r.Some? ==> r.value == DigitsValue(UnsignedDigits(s)) && r.value <= U32Max
  {
    if |s| == 0 then None
    else if |s| == 1 && (s[0] == '+' || s[0] == '-') then None
    else
      var digits := if s[0] == '+' then s[1..] else s;
      if !AllDigits(digits) then None
      else if DigitsValue(digits) > U32Max then None
      else Some(DigitsValue(digits))
  }

  /** A digit string is worth less than ten to the power of its length. */
  lemma {:induction false} DigitsValueBound(s: string)
    requires AllDigits(s)
    ensures DigitsValue(s) < Pow10(|s|)
  {
    if |s| > 0 {
      DigitsValueBound(s[..|s| - 1]);
    }
  }

  /** Every accepted text of at most nine digits parses: such a value cannot overflow 32 bits. */
  lemma ShortUnsignedParses(s: string)
    requires UnsignedSyntax(s) && |s| <= 9
    ensures ParseU32(s).Some?
  {
    DigitsValueBound(UnsignedDigits(s));
    assert Pow10(9) == 1_000_000_000;
    if |UnsignedDigits(s)| < 9 {
      PowMonotone(|UnsignedDigits(s)|, 9);
    }
  }

  lemma {:induction false} PowMonotone(j: nat, k: nat)
    requires j <= k
    ensures Pow10(j) <= Pow10(k)
  {
    if j < k {
      PowMonotone(j, k - 1);
    }
  }

  // ---------------------------------------------------------------------------------------------
  // Formatting: `{}` and `{:0w}` for integers

  /** Shortest decimal rendering of `n`, as `Display` for integers writes it: digits only, no
      leading zero, and reading it back gives `n`. */
  function Decimal(n: nat): (s: string)
    ensures 1 <= |s| && AllDigits(s)
    ensures DigitsValue(s) == n
    ensures |s| > 1 ==> s[0] != '0'
  {
    if n < 10 then [DigitChar(n)]
    else
      var s := Decimal(n / 10) + [DigitChar(n % 10)];
      assert s[..|s| - 1] == Decimal(n / 10);
      s
  }

  /** The number of digits `Decimal` uses is exactly what the magnitude of `n` requires. */
  lemma {:induction false} DecimalLength(n: nat, k: nat)
    ensures n < Pow10(k) && k >= 1 ==> |Decimal(n)| <= k
    ensures Pow10(k) <= n ==> |Decimal(n)| > k
  {
    if n >= 10 && k >= 1 {
      DecimalLength(n / 10, k - 1);
    }
  }

  function Zeros(k: nat): (z: string)
    ensures |z| == k && AllDigits(z)
  {
    seq(k, _ => '0')
  }

  /** Leading zeros do not change the value of a digit string. */
  lemma {:induction false} ZerosValue(k: nat, s: string)
    requires AllDigits(s)
    ensures DigitsValue(Zeros(k) + s) == DigitsValue(s)
    decreases |s|, k
  {
    var t := Zeros(k) + s;
    if |s| == 0 {
      assert t == Zeros(k);
      if k > 0 {
        assert t[..|t| - 1] == Zeros(k - 1) + s;
        ZerosValue(k - 1, s);
      }
    } else {
      assert t[..|t| - 1] == Zeros(k) + s[..|s| - 1];
      ZerosValue(k, s[..|s| - 1]);
    }
  }

  /** `digits` widened on the left with zeros to at least `width` characters. */
  function PadZeros(digits: string, width: nat): (r: string)
    ensures |r| == if |digits| < width then width else |digits|
  {
    if |digits| < width then Zeros(width - |digits|) + digits else digits
  }

  /** `format!("{:0w}", n)` for a signed integer: the sign comes first and the zeros go between it
      and the digits, the sign counting toward the width. Zeros are added only up to `width`: a
      value that needs more room is written with its sign and its shortest digits and nothing else. */
  function PadInt(n: int, width: nat): (r: string)
    ensures |r| >= width
    ensures var len := (if n < 0 then 1 else 0) + |Decimal(if n < 0 then -n else n)|;
      |r| == if len < width then width else len
    ensures n >= 0 ==> AllDigits(r) && DigitsValue(r) == n
    ensures n < 0 ==> |r| >= 2 && r[0] == '-' && AllDigits(r[1..]) && DigitsValue(r[1..]) == -n
  {
    if n < 0 then
      var w := if width > 0 then width - 1 else 0;
      PaddedValue(-n, w);
      var r := "-" + PadZeros(Decimal(-n), w);
      assert r[1..] == PadZeros(Decimal(-n), w);
      r
    else
      PaddedValue(n, width);
      PadZeros(Decimal(n), width)
  }

  /** Zero padding keeps the text a digit string of the same value. */
  lemma PaddedValue(n: nat, width: nat)
    ensures AllDigits(PadZeros(Decimal(n), width)) && DigitsValue(PadZeros(Decimal(n), width)) == n
  {
    var d := Decimal(n);
    if |d| < width {
      ZerosValue(width - |d|, d);
    }
  }

  /** The bucket directory name `format!("{:04}-{:02}", year, month)` of a file's year and month. */
  function FormatBucket(year: int, month: nat): (name: string)
    ensures |name| >= 7
    ensures 0 <= year <= 9999 && month <= 99 ==> |name| == 7 && name[4] == '-'
    ensures year < 0 ==> name[0] == '-'
    ensures year > 9999 ==> |name| > 7
  {
    PaddedWidth(year, 4);
    PaddedWidth(month, 2);
    assert Pow10(4) == 10000 && Pow10(2) == 100;
    PadInt(year, 4) + "-" + PadInt(month, 2)
  }

  /** The layout of a bucket name for any year: the padded year, then '-', then the padded month.
      With a month up to 99 the name is three characters longer than the padded year, so a year
      outside 0..=9999 moves the '-' away from index 4. */
  lemma FormatBucketLayout(year: int, month: nat)
    ensures var y, s := PadInt(year, 4), FormatBucket(year, month);
      && |s| == |y| + 1 + |PadInt(month, 2)|
      && s[..|y|] == y && s[|y|] == '-' && s[|y| + 1..] == PadInt(month, 2)
    ensures month <= 99 ==> |FormatBucket(year, month)| == |PadInt(year, 4)| + 3
  {
    PaddedWidth(month, 2);
    assert Pow10(2) == 100;
  }

  /** The sign counts toward the width, and a wide year gets no extra zero. */
  lemma OutOfRangeBucketNames()
    ensures FormatBucket(-5, 3) == "-005-03"
    ensures FormatBucket(12345, 3) == "12345-03"
  {
    assert Decimal(5) == "5" && Decimal(3) == "3" && Decimal(12345) == "12345";
    assert Zeros(2) == "00" && Zeros(1) == "0";
    assert PadInt(-5, 4) == "-005" && PadInt(12345, 4) == "12345" && PadInt(3, 2) == "03";
  }

  /** A non-negative value is padded to exactly `width` characters when it has at most `width`
      digits, and comes out wider when it has more. */
  lemma PaddedWidth(n: int, width: nat)
    requires 1 <= width
    ensures 0 <= n < Pow10(width) ==> |PadInt(n, width)| == width
    ensures n >= Pow10(width) ==> |PadInt(n, width)| > width
  {
    if n >= 0 {
      DecimalLength(n, width);
    }
  }

  // ---------------------------------------------------------------------------------------------
  // is_year_month_dir

  /** `is_year_month_dir`: the name is UTF-8, seven bytes long, has '-' as its fifth character,
      splits at '-' into exactly two parts, and both parts parse as `u32`. The month is not
      range-checked. */
  predicate IsYearMonthDir(name: Name)
    ensures IsYearMonthDir(name) ==> name.Utf8? && BucketPattern(name.text)
  {
    match name
    case NonUtf8(_) => false
    case Utf8(s) =>
      if Utf8Len(s) == 7 && |s| > 4 && s[4] == '-' then
        var parts := Split(s, '-');
        if |parts| == 2 && ParseU32(parts[0]).Some? && ParseU32(parts[1]).Some? then
          FieldsMatchPattern(s);
          true
        else false
      else false
  }

  /** A field of a bucket name as `parse::<u32>` lets it through: all digits, or '+' followed by
      digits. */
  predicate PatternField(t: string) {
    |t| >= 2 && (AllDigits(t) || (t[0] == '+' && AllDigits(t[1..])))
  }

  /** The names `is_year_month_dir` accepts, written as the regular expression
      `^(\d{4}|\+\d{3})-(\d{2}|\+\d)$`. */
  predicate BucketPattern(s: string) {
    |s| == 7 && s[4] == '-' && PatternField(s[..4]) && PatternField(s[5..])
  }

  /** Text matching the pattern contains only ASCII characters. */
  lemma PatternIsAscii(s: string)
    requires BucketPattern(s)
    ensures forall i :: 0 <= i < |s| ==> IsAscii(s[i])
  {
    forall i | 0 <= i < |s| ensures IsAscii(s[i]) {
      if i < 4 {
        assert s[i] == s[..4][i];
        if s[..4][0] == '+' && i > 0 {
          assert s[..4][i] == s[..4][1..][i - 1];
        }
      } else if i > 4 {
        assert s[i] == s[5..][i - 5];
        if s[5..][0] == '+' && i > 5 {
          assert s[5..][i - 5] == s[5..][1..][i - 6];
        }
      }
    }
  }

  /** A text that parses as `u32` is ASCII and free of '-'. */
  lemma UnsignedIsAsciiWithoutDash(t: string)
    requires UnsignedSyntax(t)
    ensures forall i :: 0 <= i < |t| ==> IsAscii(t[i])
    ensures '-' !in t
  {
    forall i | 0 <= i < |t| ensures IsAscii(t[i]) && t[i] != '-' {
      if !AllDigits(t) && i > 0 {
        assert t[i] == t[1..][i - 1];
      }
    }
  }

  /** A text split into exactly two parts is the first part, the separator, and the second. */
  lemma SplitInTwo(s: string, sep: char)
    requires |Split(s, sep)| == 2
    ensures s == Split(s, sep)[0] + [sep] + Split(s, sep)[1]
  {
    JoinSplit(s, sep);
    var parts := Split(s, sep);
    assert parts[1..] == [parts[1]];
  }

  /** If the separator occurs only between `a` and `b`, an index holding it is the length of `a`. */
  lemma SeparatorPosition(a: string, sep: char, b: string, k: nat)
    requires sep !in a && sep !in b
    requires k < |a| + 1 + |b| && (a + [sep] + b)[k] == sep
    ensures k == |a|
  {
  }

  /** Two ASCII texts joined by '-' are ASCII. */
  lemma JoinedIsAscii(a: string, b: string)
    requires forall i :: 0 <= i < |a| ==> IsAscii(a[i])
    requires forall i :: 0 <= i < |b| ==> IsAscii(b[i])
    ensures forall i :: 0 <= i < |a + ['-'] + b| ==> IsAscii((a + ['-'] + b)[i])
  {
    var s := a + ['-'] + b;
    forall i | 0 <= i < |s| ensures IsAscii(s[i]) {
      if i < |a| {
        assert s[i] == a[i];
      } else if i > |a| {
        assert s[i] == b[i - |a| - 1];
      }
    }
  }

  /** A seven-byte name with '-' fifth that splits at '-' into two parts both parsing as `u32`
      matches `BucketPattern`. */
  lemma FieldsMatchPattern(s: string)
    requires Utf8Len(s) == 7 && |s| > 4 && s[4] == '-'
    requires |Split(s, '-')| == 2
    requires ParseU32(Split(s, '-')[0]).Some? && ParseU32(Split(s, '-')[1]).Some?
    ensures BucketPattern(s)
  {
    var parts := Split(s, '-');
    var a, b := parts[0], parts[1];
    assert UnsignedSyntax(a) && UnsignedSyntax(b);
    SplitInTwo(s, '-');
    UnsignedIsAsciiWithoutDash(a);
    UnsignedIsAsciiWithoutDash(b);
    // The only separator is the one at index 4, so the parts are the four characters before it
    // and the characters after it.
    SeparatorPosition(a, '-', b, 4);
    JoinedIsAscii(a, b);
    assert |s| == 7;
    assert s[..4] == a && s[5..] == b;
  }

  /** Every name matching `BucketPattern` is accepted by `is_year_month_dir`. */
  lemma YearMonthDirComplete(s: string)
    requires BucketPattern(s)
    ensures IsYearMonthDir(Utf8(s))
    ensures Split(s, '-') == [s[..4], s[5..]]
  {
    PatternIsAscii(s);
    var a, b := s[..4], s[5..];
    assert UnsignedSyntax(a) && UnsignedSyntax(b);
    SplitFields(s);
    ShortUnsignedParses(a);
    ShortUnsignedParses(b);
  }

  /** A name with '-' at index 4 and no other '-' splits into the text before and after it. */
  lemma SplitFields(s: string)
    requires |s| > 4 && s[4] == '-'
    requires '-' !in s[..4] && '-' !in s[5..]
    ensures Split(s, '-') == [s[..4], s[5..]]
  {
    var a, b := s[..4], s[5..];
    assert s == a + ['-'] + b;
    SplitAtFirst(a, '-', b);
    SplitWithoutSeparator(b, '-');
  }

  /** `is_year_month_dir` accepts exactly the UTF-8 names matching `BucketPattern`: a four-digit
      year (or '+' and three digits), '-', and a two-digit month (or '+' and one digit). */
  lemma YearMonthDirIff(s: string)
    ensures IsYearMonthDir(Utf8(s)) <==> BucketPattern(s)
  {
    if BucketPattern(s) {
      YearMonthDirComplete(s);
    }
  }

  /** A name that is not valid UTF-8 is never a bucket. */
  lemma NonUtf8NeverBucket(bytes: seq<bv8>)
    ensures !IsYearMonthDir(NonUtf8(bytes))
  {
  }

  // The example lemmas below take their literal names as parameters fixed by a `requires`
  // (`requires s == "2023-99"`) instead of writing the literal into the `ensures`: the solver then
  // reasons about one variable and unfolds the recogniser over the literal once, which keeps these
  // proofs well inside the resource limit.

  /** The accepted set is wider than four digits, '-', two digits: a '+' sign may stand in front of
      either field. */
  lemma AcceptsSignedFields(s: string)
    requires s == "+123-+1"
    ensures IsYearMonthDir(Utf8(s))
  {
    assert s[..4][1..] == "123";
    assert s[5..][1..] == "1";
    YearMonthDirComplete(s);
  }

  /** The month is not range-checked. */
  lemma AcceptsAnyMonth(s: string)
    requires s == "2023-99"
    ensures IsYearMonthDir(Utf8(s))
  {
    YearMonthDirComplete(s);
  }

  /** A month of one digit, a second '-', or a leading '-' is rejected. */
  lemma RejectsMalformed(r: string, s: string, t: string)
    requires r == "2023-1" && s == "2023--1" && t == "-023-01"
    ensures !IsYearMonthDir(Utf8(r)) && !IsYearMonthDir(Utf8(s)) && !IsYearMonthDir(Utf8(t))
  {
    YearMonthDirIff(r);
    assert s[5..][0] == '-';
    YearMonthDirIff(s);
    assert t[..4][0] == '-';
    YearMonthDirIff(t);
  }

  // ---------------------------------------------------------------------------------------------
  // The formatter against the recogniser

  /** A non-empty digit string parses as its value when that fits in 32 bits. */
  lemma ParseDigits(s: string)
    requires 1 <= |s| && AllDigits(s) && DigitsValue(s) <= U32Max
    ensures ParseU32(s) == Some(DigitsValue(s))
  {
    assert s[0] != '+' && s[0] != '-';
  }

  /** A non-negative value of at most `width` digits, zero-padded, reads back as itself. */
  lemma PaddedReadsBack(n: nat, width: nat)
    requires 1 <= width <= 9 && n < Pow10(width)
    ensures |PadInt(n, width)| == width
    ensures UnsignedSyntax(PadInt(n, width)) && AllDigits(PadInt(n, width))
    ensures ParseU32(PadInt(n, width)) == Some(n)
  {
    DecimalLength(n, width);
    PowMonotone(width, 9);
    assert Pow10(9) == 1_000_000_000;
    ParseDigits(PadInt(n, width));
  }

  /** For a four-digit year and a two-digit month the formatted name is the padded year, '-', and
      the padded month, each reading back as the value it renders. */
  lemma FormatFields(year: int, month: nat)
    requires 0 <= year <= 9999 && month <= 99
    ensures var s := FormatBucket(year, month);
      && |s| == 7 && s[4] == '-'
      && s[..4] == PadInt(year, 4) && s[5..] == PadInt(month, 2)
      && ParseU32(s[..4]) == Some(year) && ParseU32(s[5..]) == Some(month)
  {
    assert Pow10(4) == 10000 && Pow10(2) == 100;
    PaddedReadsBack(year, 4);
    PaddedReadsBack(month, 2);
  }

  /** A seven-character text with '-' at index 4 whose two sides parse as `u32` is a bucket name
      and splits into exactly those two sides. */
  lemma RecognisedFromFields(s: string)
    requires |s| == 7 && s[4] == '-'
    requires ParseU32(s[..4]).Some? && ParseU32(s[5..]).Some?
    ensures IsYearMonthDir(Utf8(s))
    ensures Split(s, '-') == [s[..4], s[5..]]
  {
    assert PatternField(s[..4]) && PatternField(s[5..]);
    YearMonthDirComplete(s);
  }

  /** Round trip: for a year in 0..=9999 and a month in 0..=99 (chrono's months are 1..=12) the
      formatted bucket name is seven characters, is recognised as a bucket, and its two parts parse
      back to the year and the month. */
  lemma FormatRoundTrip(year: int, month: nat)
    requires 0 <= year <= 9999 && month <= 99
    ensures var s := FormatBucket(year, month);
      && |s| == 7
      && IsYearMonthDir(Utf8(s))
      && Split(s, '-') == [s[..4], s[5..]]
      && ParseU32(s[..4]) == Some(year)
      && ParseU32(s[5..]) == Some(month)
  {
    FormatFields(year, month);
    RecognisedFromFields(FormatBucket(year, month));
  }

  /** The formatted name of a year outside 0..=9999 is not recognised: a negative year starts with
      '-' and a year past 9999 makes the name longer than seven characters. So the recogniser
      accepts the formatter's output exactly for four-digit years. */
  lemma FormattedRecognisedIff(year: int, month: nat)
    requires month <= 99
    ensures IsYearMonthDir(Utf8(FormatBucket(year, month))) <==> 0 <= year <= 9999
  {
    var s := FormatBucket(year, month);
    YearMonthDirIff(s);
    if 0 <= year <= 9999 {
      FormatRoundTrip(year, month);
    } else if year < 0 {
      assert s[0] == '-';
      assert s[..4][0] == '-';
    } else {
      assert Pow10(4) == 10000;
      DecimalLength(year, 4);
      assert |PadInt(year, 4)| >= 5;
    }
  }
}
