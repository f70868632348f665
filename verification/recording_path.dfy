/** `RecordingPathBuilder`: where a channel's recording goes. The channel
    name is made safe for a file name, and the directory and file name are
    built from it and the recording's UTC timestamp. Paths follow the
    Windows conventions of `System.IO.Path`: `\` joins components, and `/`
    is also accepted as a separator. */
module RecordingPath {
  import opened Wrappers
  import Text

  const Separator: char := '\\'
  const AltSeparator: char := '/'

  predicate IsSeparator(c: char) {
    c == Separator || c == AltSeparator
  }

  /** `Path.IsPathRooted`: starts with a separator or a drive letter. */
  predicate IsRooted(s: string) {
    (|s| >= 1 && IsSeparator(s[0])) || (|s| >= 2 && s[1] == ':')
  }

  /** `Path.Combine(a, b)` for a relative `b`: an empty part is dropped, and a
      separator is put between the parts unless `a` already ends with one. */
  function Combine(a: string, b: string): string
    requires !IsRooted(b)
  {
    if b == "" then a
    else if a == "" then b
    else if IsSeparator(a[|a| - 1]) then a + b
    else a + [Separator] + b
  }

  /** Joining keeps both parts in order, with at most a separator between
      them, and adds one exactly when neither an empty part nor a trailing
      separator makes it unnecessary. */
  lemma CombineParts(a: string, b: string)
    requires !IsRooted(b)
    ensures var r := Combine(a, b);
      && |r| >= |a| + |b|
      && (b == "" ==> r == a)
      && (a == "" ==> r == b)
      && (a != "" && b != "" ==> r[..|a|] == a && r[|r| - |b|..] == b)
      && (a != "" && b != "" && !IsSeparator(a[|a| - 1]) ==> r == a + [Separator] + b)
      && (a != "" && b != "" && IsSeparator(a[|a| - 1]) ==> r == a + b)
  {
  }

  // ---------------------------------------------------------------------------
  // Sanitising channel names

  /** The characters `Sanitize` replaces besides control characters. */
  const InvalidChars: seq<char> := ['\\', '/', ':', '*', '?', '"', '<', '>', '|']

  predicate IsUnsafe(c: char) {
    c in InvalidChars || Text.IsControl(c)
  }

  /** No character of `s` needs replacing. */
  predicate IsSafeName(s: string) {
    forall i :: 0 <= i < |s| ==> !IsUnsafe(s[i])
  }

  const Unknown: string := "unknown"

  /** `Sanitize`: a blank name becomes "unknown"; otherwise every invalid or
      control character becomes '_'. */
  function Sanitize(name: string): (r: string)
    ensures Text.IsBlank(name) ==> r == Unknown
    ensures !Text.IsBlank(name) ==> |r| == |name|
    ensures !Text.IsBlank(name) ==> forall i :: 0 <= i < |name| ==>
      (IsUnsafe(name[i]) ==> r[i] == '_') && (!IsUnsafe(name[i]) ==> r[i] == name[i])
  {
    if Text.IsBlank(name) then Unknown
    else seq(|name|, i requires 0 <= i < |name| => if IsUnsafe(name[i]) then '_' else name[i])
  }

  /** A sanitised name is never blank and never needs sanitising again. */
  lemma SanitizeSafe(name: string)
    ensures IsSafeName(Sanitize(name)) && !Text.IsBlank(Sanitize(name))
  {
    var r := Sanitize(name);
    if Text.IsBlank(name) {
      assert !Text.IsWhiteSpace(Unknown[0]);
    } else {
      var i :| 0 <= i < |name| && !Text.IsWhiteSpace(name[i]);
      assert !Text.IsWhiteSpace(r[i]);
    }
  }

  /** A safe, non-blank name is its own sanitisation. */
  lemma SanitizeFixesSafe(name: string)
    requires IsSafeName(name) && !Text.IsBlank(name)
    ensures Sanitize(name) == name
  {
  }

  /** Sanitising is idempotent. */
  lemma SanitizeIdempotent(name: string)
    ensures Sanitize(Sanitize(name)) == Sanitize(name)
  {
    SanitizeSafe(name);
    SanitizeFixesSafe(Sanitize(name));
  }

  /** A sanitised name holds no separator and no drive colon, so it is a
      single relative path component. */
  lemma SanitizedIsComponent(name: string)
    ensures var s := Sanitize(name);
      s != "" && !IsRooted(s) && forall i :: 0 <= i < |s| ==> !IsSeparator(s[i])
  {
    SanitizeSafe(name);
    var s := Sanitize(name);
    assert forall i :: 0 <= i < |s| ==> !IsUnsafe(s[i]);
    if |s| >= 2 { assert !IsUnsafe(s[1]); }
  }

  // ---------------------------------------------------------------------------
  // Timestamps

  /** The reading of a `DateTimeOffset` after `ToUniversalTime`: the UTC
      wall-clock fields, in the Gregorian calendar. */
  datatype Timestamp = Timestamp(year: int, month: int, day: int, hour: int, minute: int, second: int) {
    predicate Valid() {
      && 1 <= year <= 9999 && 1 <= month <= 12 && 1 <= day <= 31
      && 0 <= hour < 24 && 0 <= minute < 60 && 0 <= second < 60
    }
  }

  function Pow10(n: nat): (r: nat)
    ensures r >= 1
  {
    if n == 0 then 1 else 10 * Pow10(n - 1)
  }

  /** The last `width` decimal digits of `n`, zero-padded: a custom format
      field such as `yyyy` or `MM`. */
  function Fixed(n: nat, width: nat): (r: string)
    ensures |r| == width && Text.IsDigits(r)
  {
    if width == 0 then "" else Fixed(n / 10, width - 1) + [Text.DigitChar(n % 10)]
  }

  /** A fixed-width field is read back as the number it formats, when that
      number fits in the width. */
  lemma {:induction false} FixedReadsBack(n: nat, width: nat)
    requires n < Pow10(width)
    ensures Text.ParseDigits(Fixed(n, width)) == n
  {
    if width > 0 {
      var s := Fixed(n, width);
      assert s[..|s| - 1] == Fixed(n / 10, width - 1);
      FixedReadsBack(n / 10, width - 1);
    }
  }

  lemma FixedInjective(m: nat, n: nat, width: nat)
    requires m < Pow10(width) && n < Pow10(width)
    ensures Fixed(m, width) == Fixed(n, width) ==> m == n
  {
    FixedReadsBack(m, width);
    FixedReadsBack(n, width);
  }

  /** `yyyyMMdd`. */
  function DateStamp(t: Timestamp): (r: string)
    requires t.Valid()
    ensures |r| == 8 && Text.IsDigits(r)
  {
    Fixed(t.year, 4) + Fixed(t.month, 2) + Fixed(t.day, 2)
  }

  /** `HHmmss`. */
  function TimeStamp(t: Timestamp): (r: string)
    requires t.Valid()
    ensures |r| == 6 && Text.IsDigits(r)
  {
    Fixed(t.hour, 2) + Fixed(t.minute, 2) + Fixed(t.second, 2)
  }

  /** Two strings cut at the same length are equal exactly when both parts are. */
  lemma SplitEqual(a1: string, a2: string, b1: string, b2: string)
    requires |a1| == |b1|
    ensures a1 + a2 == b1 + b2 <==> a1 == b1 && a2 == b2
  {
    if a1 + a2 == b1 + b2 {
      assert (a1 + a2)[..|a1|] == a1 && (b1 + b2)[..|b1|] == b1;
      assert (a1 + a2)[|a1|..] == a2 && (b1 + b2)[|b1|..] == b2;
    }
  }

  /** Three strings cut at the same lengths are equal exactly when all
      three parts are. */
  lemma SplitEqual3(a1: string, a2: string, a3: string, b1: string, b2: string, b3: string)
    requires |a1| == |b1| && |a2| == |b2|
    ensures a1 + a2 + a3 == b1 + b2 + b3 <==> a1 == b1 && a2 == b2 && a3 == b3
  {
    SplitEqual(a1 + a2, a3, b1 + b2, b3);
    SplitEqual(a1, a2, b1, b2);
  }

  /** Three fixed-width fields determine the numbers they print. */
  lemma FieldsInjective(x1: nat, x2: nat, x3: nat, y1: nat, y2: nat, y3: nat, w1: nat, w2: nat, w3: nat)
    requires x1 < Pow10(w1) && y1 < Pow10(w1) && x2 < Pow10(w2) && y2 < Pow10(w2)
    requires x3 < Pow10(w3) && y3 < Pow10(w3)
    ensures Fixed(x1, w1) + Fixed(x2, w2) + Fixed(x3, w3) == Fixed(y1, w1) + Fixed(y2, w2) + Fixed(y3, w3)
        <==> x1 == y1 && x2 == y2 && x3 == y3
  {
    SplitEqual3(Fixed(x1, w1), Fixed(x2, w2), Fixed(x3, w3), Fixed(y1, w1), Fixed(y2, w2), Fixed(y3, w3));
    FixedInjective(x1, y1, w1);
    FixedInjective(x2, y2, w2);
    FixedInjective(x3, y3, w3);
  }

  /** Distinct days get distinct directories, and distinct seconds distinct
      file names: the stamps determine the calendar fields they print. */
  lemma StampsInjective(s: Timestamp, t: Timestamp)
    requires s.Valid() && t.Valid()
    ensures DateStamp(s) == DateStamp(t) <==> (s.year, s.month, s.day) == (t.year, t.month, t.day)
    ensures DateStamp(s) + TimeStamp(s) == DateStamp(t) + TimeStamp(t) <==> s == t
  {
    assert Pow10(2) == 100 && Pow10(4) == 10000;
    FieldsInjective(s.year, s.month, s.day, t.year, t.month, t.day, 4, 2, 2);
    FieldsInjective(s.hour, s.minute, s.second, t.hour, t.minute, t.second, 2, 2, 2);
    SplitEqual(DateStamp(s), TimeStamp(s), DateStamp(t), TimeStamp(t));
  }

  /** Appending a digit to the lower part of a two-part number. */
  lemma ShiftDigit(x: int, p: int, y: int, d: int)
    ensures (x * p + y) * 10 + d == x * (p * 10) + (y * 10 + d)
  {
  }

  /** Reading digits back distributes over concatenation. */
  lemma {:induction false} ParseConcat(a: string, b: string)
    requires Text.IsDigits(a) && Text.IsDigits(b)
    ensures Text.IsDigits(a + b)
    ensures Text.ParseDigits(a + b) == Text.ParseDigits(a) * Pow10(|b|) + Text.ParseDigits(b)
    decreases |b|
  {
    assert Text.IsDigits(a + b);
    if b != [] {
      var ab := a + b;
      var b' := b[..|b| - 1];
      var d := b[|b| - 1] as int - '0' as int;
      var x, y := Text.ParseDigits(a), Text.ParseDigits(b');
      assert ab[..|ab| - 1] == a + b';
      assert ab[|ab| - 1] == b[|b| - 1];
      ParseConcat(a, b');
      calc {
        Text.ParseDigits(ab);
        Text.ParseDigits(a + b') * 10 + d;
        (x * Pow10(|b'|) + y) * 10 + d;
        { ShiftDigit(x, Pow10(|b'|), y, d); }
        x * (Pow10(|b'|) * 10) + (y * 10 + d);
        x * Pow10(|b|) + Text.ParseDigits(b);
      }
    } else {
      assert a + b == a;
    }
  }

  /** Three fixed-width fields read together as one decimal number. */
  lemma FieldsValue(x1: nat, x2: nat, x3: nat, w: nat)
    requires x1 < Pow10(w) && x2 < 100 && x3 < 100
    ensures Text.ParseDigits(Fixed(x1, w) + Fixed(x2, 2) + Fixed(x3, 2)) == x1 * 10000 + x2 * 100 + x3
  {
    assert Pow10(2) == 100;
    FixedReadsBack(x1, w);
    FixedReadsBack(x2, 2);
    FixedReadsBack(x3, 2);
    ParseConcat(Fixed(x1, w), Fixed(x2, 2));
    ParseConcat(Fixed(x1, w) + Fixed(x2, 2), Fixed(x3, 2));
  }

  /** The stamps read as the decimal numbers yyyymmdd and hhmmss. */
  lemma StampValues(t: Timestamp)
    requires t.Valid()
    ensures Text.ParseDigits(DateStamp(t)) == t.year * 10000 + t.month * 100 + t.day
    ensures Text.ParseDigits(TimeStamp(t)) == t.hour * 10000 + t.minute * 100 + t.second
  {
    assert Pow10(2) == 100 && Pow10(4) == 10000;
    FieldsValue(t.year, t.month, t.day, 4);
    FieldsValue(t.hour, t.minute, t.second, 2);
  }

  // ---------------------------------------------------------------------------
  // Build

  /** The recording options `Build` reads. */
  datatype RecordingOptions = RecordingOptions(rootDirectory: string)

  const DefaultRoot: string := "recordings"

  datatype BuildError = OptionsNull  // `ArgumentNullException` for `options`

  datatype RecordingTarget = RecordingTarget(directory: string, filePath: string)

  /** The recording's file name: `<safe>_<yyyyMMdd>_<HHmmss>.ts`. */
  function FileName(channelName: string, t: Timestamp): (r: string)
    requires t.Valid()
  {
    Sanitize(channelName) + "_" + DateStamp(t) + "_" + TimeStamp(t) + ".ts"
  }

  /** Neither the day stamp nor the file name is rooted, and the day stamp
      holds no separator. */
  lemma PartsRelative(channelName: string, t: Timestamp)
    requires t.Valid()
    ensures !IsRooted(Sanitize(channelName)) && Sanitize(channelName) != ""
    ensures !IsRooted(DateStamp(t)) && !IsSeparator(DateStamp(t)[7])
    ensures !IsRooted(FileName(channelName, t))
  {
    SanitizedIsComponent(channelName);
    var safe := Sanitize(channelName);
    var name := FileName(channelName, t);
    var d := DateStamp(t);
    assert '0' <= d[0] <= '9' && '0' <= d[1] <= '9' && '0' <= d[7] <= '9';
    assert name[..|safe|] == safe;
    if |safe| == 1 { assert name[1] == '_'; }
    if |safe| >= 2 { assert name[1] == safe[1]; }
  }

  /** `Build`: the directory is root, safe channel name and day joined as
      path components, and the file lies directly inside it. */
  function Build(options: Option<RecordingOptions>, channelName: string, t: Timestamp): (r: Result<RecordingTarget, BuildError>)
    requires t.Valid()
    ensures options.None? <==> r.Failure?
  {
    if options.None? then Failure(OptionsNull)
    else
      PartsRelative(channelName, t);
      var directory := Combine(Combine(options.value.rootDirectory, Sanitize(channelName)), DateStamp(t));
      Success(RecordingTarget(directory, Combine(directory, FileName(channelName, t))))
  }

  /** The inner join of `Build`: the day directory is the channel directory,
      a separator and the day stamp, and does not end with a separator. */
  lemma DayDirectory(root: string, safe: string, day: string)
    requires safe != "" && !IsRooted(safe) && !IsSeparator(safe[|safe| - 1])
    requires |day| == 8 && !IsRooted(day) && !IsSeparator(day[7])
    ensures var d := Combine(Combine(root, safe), day);
      && d == Combine(root, safe) + [Separator] + day
      && d[|d| - |safe| - 9..] == safe + [Separator] + day
      && !IsSeparator(d[|d| - 1])
  {
    var inner := Combine(root, safe);
    ChannelDirectory(root, safe);
    LastOfSuffix(inner, safe);
    CombineWithSeparator(inner, day);
    AppendDay(inner, safe, day, 0);
  }

  /** The day directory starts with the root when there is one, and is the
      safe name and the day stamp when there is none. */
  lemma DayDirectoryRoot(root: string, safe: string, day: string)
    requires safe != "" && !IsRooted(safe) && !IsSeparator(safe[|safe| - 1])
    requires |day| == 8 && !IsRooted(day) && !IsSeparator(day[7])
    ensures var d := Combine(Combine(root, safe), day);
      && (root == "" ==> d == safe + [Separator] + day)
      && (root != "" ==> d[..|root|] == root)
  {
    var inner := Combine(root, safe);
    ChannelDirectory(root, safe);
    LastOfSuffix(inner, safe);
    CombineWithSeparator(inner, day);
    AppendDay(inner, safe, day, |root|);
  }

  /** A string ending with a non-empty suffix ends with the suffix's last
      character. */
  lemma LastOfSuffix(s: string, suffix: string)
    requires 0 < |suffix| <= |s| && s[|s| - |suffix|..] == suffix
    ensures s[|s| - 1] == suffix[|suffix| - 1]
  {
    assert s[|s| - |suffix|..][|suffix| - 1] == s[|s| - 1];
  }

  /** The channel directory ends with the safe name, and starts with the root
      when there is one. */
  lemma ChannelDirectory(root: string, safe: string)
    requires safe != "" && !IsRooted(safe)
    ensures var inner := Combine(root, safe);
      && |inner| >= |root| + |safe|
      && inner[|inner| - |safe|..] == safe
      && (root == "" ==> inner == safe)
      && (root != "" ==> inner[..|root|] == root)
  {
    CombineParts(root, safe);
  }

  /** Joining after a part that does not end in a separator inserts one. */
  lemma CombineWithSeparator(a: string, b: string)
    requires a != "" && b != "" && !IsRooted(b) && !IsSeparator(a[|a| - 1])
    ensures Combine(a, b) == a + [Separator] + b
  {
  }

  /** What a separator and a day stamp appended to the channel directory
      leave at the end and at the start. */
  lemma AppendDay(inner: string, safe: string, day: string, n: nat)
    requires |safe| <= |inner| && inner[|inner| - |safe|..] == safe && |day| == 8 && n <= |inner|
    ensures var d := inner + [Separator] + day;
      && d[|d| - |safe| - 9..] == safe + [Separator] + day
      && d[..n] == inner[..n]
      && d[|d| - 1] == day[7]
  {
    var d := inner + [Separator] + day;
    assert d[|d| - |safe| - 9..] == inner[|inner| - |safe|..] + [Separator] + day;
  }

  /** The directory ends with `<safe>\\<yyyyMMdd>`, preceded by the root when
      it is not empty. */
  lemma BuildDirectory(options: RecordingOptions, channelName: string, t: Timestamp)
    requires t.Valid()
    ensures var r := Build(Some(options), channelName, t);
      var safe := Sanitize(channelName);
      && r.Success?
      && r.value.directory[|r.value.directory| - |safe| - 9..] == safe + [Separator] + DateStamp(t)
      && (options.rootDirectory == "" ==> r.value.directory == safe + [Separator] + DateStamp(t))
      && (options.rootDirectory != "" ==> r.value.directory[..|options.rootDirectory|] == options.rootDirectory)
  {
    PartsRelative(channelName, t);
    SanitizedIsComponent(channelName);
    var safe := Sanitize(channelName);
    var day := DateStamp(t);
    assert !IsSeparator(safe[|safe| - 1]);
    DayDirectory(options.rootDirectory, safe, day);
    DayDirectoryRoot(options.rootDirectory, safe, day);
    assert Build(Some(options), channelName, t).value.directory == Combine(Combine(options.rootDirectory, safe), day);
  }

  /** The file lies directly inside the directory: the file path is the
      directory, one separator and the file name. */
  lemma BuildFile(options: RecordingOptions, channelName: string, t: Timestamp)
    requires t.Valid()
    ensures var r := Build(Some(options), channelName, t);
      r.Success? && r.value.filePath == r.value.directory + [Separator] + FileName(channelName, t)
  {
    PartsRelative(channelName, t);
    SanitizedIsComponent(channelName);
    var safe := Sanitize(channelName);
    assert !IsSeparator(safe[|safe| - 1]);
    DayDirectory(options.rootDirectory, safe, DateStamp(t));
    var directory := Combine(Combine(options.rootDirectory, safe), DateStamp(t));
    CombineParts(directory, FileName(channelName, t));
  }

}
