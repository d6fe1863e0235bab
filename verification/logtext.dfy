/**
 The pure string helpers of the logger: the normalisation of the log
 directory, the dated log file name, the optional time stamp, the module
 field and qualifier of the facade, and the rendering of one buffered line.
 The wall clock is an input: `LocalTime` carries the fields of the C
 `struct tm` that the logger reads, plus the microseconds of the current
 second.
 */
module LogText {
  import opened Decimal

  /** Width of the module field of every line. */
  const MODULE_NAME_LEN: nat := 20

  /**
   A reading of the local wall clock: `tmYear` counts years since 1900 and
   `tmMon` months since January, as in `struct tm`; `micros` is the
   sub-second part in microseconds.
   */
  datatype LocalTime = LocalTime(
    tmYear: nat, tmMon: nat, tmMday: nat,
    tmHour: nat, tmMin: nat, tmSec: nat,
    micros: nat)

  /** The ranges `localtime` and `clock_gettime` deliver (a leap second allows 60). */
  predicate ValidClock(t: LocalTime) {
    t.tmHour < 24 && t.tmMin < 60 && t.tmSec <= 60 && t.micros < 1_000_000
  }

  /** A calendar date whose year has at most four digits. */
  predicate ValidDate(t: LocalTime) {
    t.tmYear + 1900 < 10000 && t.tmMon < 12 && 1 <= t.tmMday <= 31
  }

  /** Two readings on the same calendar day. */
  predicate SameDay(t1: LocalTime, t2: LocalTime) {
    t1.tmYear == t2.tmYear && t1.tmMon == t2.tmMon && t1.tmMday == t2.tmMday
  }

  // ---------------------------------------------------------------------------
  // Log directory

  /**
   The stored form of a requested log directory: one trailing '/' is
   removed, any further one is kept; the empty path stays empty.
   */
  function StripTrailingSlash(path: string): (r: string)
    ensures r == path || r + "/" == path
    ensures |r| < |path| <==> |path| > 0 && path[|path| - 1] == '/'
  {
    if |path| > 0 && path[|path| - 1] != '/' then
      path
    else if |path| == 0 then
      // `substr(0, npos)` of the empty string.
      ""
    else
      path[..|path| - 1]
  }

  /** A directory named with or without one trailing '/' is stored the same way. */
  lemma SlashVariantsAgree(p: string)
    requires p == "" || p[|p| - 1] != '/'
    ensures StripTrailingSlash(p + "/") == StripTrailingSlash(p) == p
  {
    assert (p + "/")[..|p|] == p;
  }

  /** Only one separator is removed: "p//" is stored as "p/". */
  lemma OnlyOneSlashStripped(p: string)
    ensures StripTrailingSlash(p + "//") == p + "/"
  {
    assert (p + "//")[..|p| + 1] == p + "/";
  }

  // ---------------------------------------------------------------------------
  // Dated log file name

  /** `YYYY-MM-DD` from the `%04d-%02d-%02d` of year + 1900, month + 1 and day. */
  function DateStamp(t: LocalTime): string {
    ZeroPad(t.tmYear + 1900, 4) + "-" + ZeroPad(t.tmMon + 1, 2) + "-" + ZeroPad(t.tmMday, 2)
  }

  /** `<path>/log-YYYY-MM-DD.txt`: the file a flush appends to. */
  function LogFileName(path: string, t: LocalTime): string {
    path + "/log-" + DateStamp(t) + ".txt"
  }

  /** For a four-digit year the date stamp is ten characters and the date can be read back from it. */
  lemma DateStampLayout(t: LocalTime)
    requires ValidDate(t)
    ensures |DateStamp(t)| == 10
    ensures DateStamp(t)[4] == '-' && DateStamp(t)[7] == '-'
    ensures DigitsDenote(DateStamp(t)[0..4], t.tmYear + 1900)
    ensures DigitsDenote(DateStamp(t)[5..7], t.tmMon + 1)
    ensures DigitsDenote(DateStamp(t)[8..10], t.tmMday)
  {
    PaddedField(t.tmYear + 1900, 4, 10000);
    PaddedField(t.tmMon + 1, 2, 100);
    PaddedField(t.tmMday, 2, 100);
    var y, m, d := ZeroPad(t.tmYear + 1900, 4), ZeroPad(t.tmMon + 1, 2), ZeroPad(t.tmMday, 2);
    ThreeFields(y, '-', m, '-', d);
    var ds := DateStamp(t);
    assert ds == y + ['-'] + m + ['-'] + d;
    assert ds[8..10] == ds[8..] == d;
  }

  /** A zero-padded field of a value below 10^width is exactly `width` digits denoting the value. */
  lemma PaddedField(n: nat, width: nat, bound: nat)
    requires 1 <= width && bound == Pow10(width)
    requires n < bound
    ensures |ZeroPad(n, width)| == width
    ensures DigitsDenote(ZeroPad(n, width), n)
  {
    ZeroPadWidth(n, width);
    ValueOfZeroPad(n, width);
  }

  /** Where the three fields of `a` + sep1 + `b` + sep2 + `c` sit. */
  lemma ThreeFields(a: string, sep1: char, b: string, sep2: char, c: string)
    ensures var s := a + [sep1] + b + [sep2] + c;
      |s| == |a| + |b| + |c| + 2 && s[..|a|] == a && s[|a|] == sep1
      && s[|a| + 1..|a| + 1 + |b|] == b && s[|a| + 1 + |b|] == sep2
      && s[|a| + |b| + 2..] == c
  {
  }

  /**
   For a four-digit year the name is the directory, `/log-`, the ten-character
   date stamp and `.txt`.
   */
  lemma LogFileNameLayout(path: string, t: LocalTime)
    requires ValidDate(t)
    ensures |LogFileName(path, t)| == |path| + 19
    ensures LogFileName(path, t)[..|path|] == path
    ensures LogFileName(path, t)[|path|..|path| + 5] == "/log-"
    ensures LogFileName(path, t)[|path| + 5..|path| + 15] == DateStamp(t)
    ensures LogFileName(path, t)[|path| + 15..] == ".txt"
  {
    DateStampLayout(t);
    var name, n := LogFileName(path, t), |path|;
    assert name == path + "/log-" + DateStamp(t) + ".txt";
    assert name[n + 5..n + 15] == DateStamp(t);
  }

  /** Different directories or different days never share a log file. */
  lemma LogFileNameInjective(p1: string, t1: LocalTime, p2: string, t2: LocalTime)
    requires ValidDate(t1) && ValidDate(t2)
    requires LogFileName(p1, t1) == LogFileName(p2, t2)
    ensures p1 == p2
    ensures t1.tmYear == t2.tmYear && t1.tmMon == t2.tmMon && t1.tmMday == t2.tmMday
  {
    LogFileNameLayout(p1, t1);
    LogFileNameLayout(p2, t2);
    DateStampLayout(t1);
    DateStampLayout(t2);
    var ds1, ds2 := DateStamp(t1), DateStamp(t2);
    assert |p1| == |p2|;
    assert ds1 == ds2;
    assert ds1[0..4] == ds2[0..4] && ds1[5..7] == ds2[5..7] && ds1[8..10] == ds2[8..10];
  }

  // ---------------------------------------------------------------------------
  // Time stamp, module field, qualifier, line

  /** `HH:MM:SS.uuuuuu ` from `%02d:%02d:%02d.%06d `. */
  function TimestampPrefix(t: LocalTime): string {
    ClockText(t) + " "
  }

  /** `HH:MM:SS.uuuuuu` */
  function ClockText(t: LocalTime): string {
    HourMinute(t) + ":" + ZeroPad(t.tmSec, 2) + "." + ZeroPad(t.micros, 6)
  }

  /** `HH:MM` */
  function HourMinute(t: LocalTime): string {
    ZeroPad(t.tmHour, 2) + ":" + ZeroPad(t.tmMin, 2)
  }

  /** A valid clock reading gives a 16-character prefix from which the reading can be read back. */
  lemma TimestampLayout(t: LocalTime)
    requires ValidClock(t)
    ensures |TimestampPrefix(t)| == 16
    ensures TimestampPrefix(t)[2] == ':' && TimestampPrefix(t)[5] == ':'
    ensures TimestampPrefix(t)[8] == '.' && TimestampPrefix(t)[15] == ' '
    ensures DigitsDenote(TimestampPrefix(t)[0..2], t.tmHour)
    ensures DigitsDenote(TimestampPrefix(t)[3..5], t.tmMin)
    ensures DigitsDenote(TimestampPrefix(t)[6..8], t.tmSec)
    ensures DigitsDenote(TimestampPrefix(t)[9..15], t.micros)
  {
    ClockTextLayout(t);
    var c, p := ClockText(t), TimestampPrefix(t);
    assert p == c + [' '];
    assert p[0..2] == c[0..2] && p[3..5] == c[3..5];
    assert p[6..8] == c[6..8] && p[9..15] == c[9..15];
  }

  lemma ClockTextLayout(t: LocalTime)
    requires ValidClock(t)
    ensures |ClockText(t)| == 15
    ensures ClockText(t)[2] == ':' && ClockText(t)[5] == ':' && ClockText(t)[8] == '.'
    ensures DigitsDenote(ClockText(t)[0..2], t.tmHour)
    ensures DigitsDenote(ClockText(t)[3..5], t.tmMin)
    ensures DigitsDenote(ClockText(t)[6..8], t.tmSec)
    ensures DigitsDenote(ClockText(t)[9..15], t.micros)
  {
    HourMinuteLayout(t);
    PaddedField(t.tmSec, 2, 100);
    PaddedField(t.micros, 6, 1_000_000);
    var hm, sec, us := HourMinute(t), ZeroPad(t.tmSec, 2), ZeroPad(t.micros, 6);
    ThreeFields(hm, ':', sec, '.', us);
    var c := ClockText(t);
    assert c == hm + [':'] + sec + ['.'] + us;
    assert c[9..15] == c[9..] == us;
    assert c[0..2] == hm[0..2] && c[3..5] == hm[3..5];
  }

  lemma HourMinuteLayout(t: LocalTime)
    requires ValidClock(t)
    ensures |HourMinute(t)| == 5 && HourMinute(t)[2] == ':'
    ensures DigitsDenote(HourMinute(t)[0..2], t.tmHour)
    ensures DigitsDenote(HourMinute(t)[3..5], t.tmMin)
  {
    PaddedField(t.tmHour, 2, 100);
    PaddedField(t.tmMin, 2, 100);
    var h, m := ZeroPad(t.tmHour, 2), ZeroPad(t.tmMin, 2);
    var hm := HourMinute(t);
    assert hm == h + [':'] + m;
    assert hm[0..2] == h && hm[3..5] == m;
  }

  function Min(a: int, b: int): int {
    if a < b then a else b
  }

  /**
   The module field of `%-20.20s`: the first 20 characters of the name,
   left-justified and space-filled to exactly 20.
   */
  function ModuleField(name: string): (r: string)
    ensures |r| == MODULE_NAME_LEN
    ensures r[..Min(|name|, MODULE_NAME_LEN)] == name[..Min(|name|, MODULE_NAME_LEN)]
    ensures forall i :: Min(|name|, MODULE_NAME_LEN) <= i < MODULE_NAME_LEN ==> r[i] == ' '
  {
    if |name| >= MODULE_NAME_LEN then
      name[..MODULE_NAME_LEN]
    else
      name + Fill(' ', MODULE_NAME_LEN - |name|)
  }

  /** The name with its trailing spaces removed. */
  function TrimRight(s: string): (r: string)
    ensures |r| <= |s| && r == s[..|r|]
    ensures r == [] || r[|r| - 1] != ' '
    ensures forall i :: |r| <= i < |s| ==> s[i] == ' '
  {
    if s == [] || s[|s| - 1] != ' ' then s else TrimRight(s[..|s| - 1])
  }

  /** A short name without trailing blanks is recovered from its padded field. */
  lemma ModuleFieldTrim(name: string)
    requires |name| <= MODULE_NAME_LEN
    requires name == [] || name[|name| - 1] != ' '
    ensures TrimRight(ModuleField(name)) == name
  {
  }

  /** Padding an already padded field changes nothing. */
  lemma ModuleFieldIdempotent(name: string)
    ensures ModuleField(ModuleField(name)) == ModuleField(name)
  {
  }

  /** The facade's qualifier `"%s L%d -"` of a module field and a level. */
  function Qualifier(field: string, level: int): string {
    field + " L" + IntText(level) + " -"
  }

  /** A qualifier built from a 20-character field gives back the module and the level. */
  lemma QualifierFields(field: string, level: int)
    requires |field| == MODULE_NAME_LEN
    ensures var q := Qualifier(field, level);
      && |q| >= MODULE_NAME_LEN + 5
      && q[..MODULE_NAME_LEN] == field
      && q[MODULE_NAME_LEN..MODULE_NAME_LEN + 2] == " L"
      && q[|q| - 2..] == " -"
      && IsIntText(q[MODULE_NAME_LEN + 2..|q| - 2])
      && ParseInt(q[MODULE_NAME_LEN + 2..|q| - 2]) == level
  {
    var q := Qualifier(field, level);
    var l := IntText(level);
    assert q[MODULE_NAME_LEN + 2..|q| - 2] == l;
    ParseIntText(level);
  }

  /** The optional time stamp; empty when time stamping is off. */
  function StampOf(timestamp: bool, now: LocalTime): string {
    if timestamp then TimestampPrefix(now) else ""
  }

  /** One buffered line: optional time stamp, then the qualifier and a space, then the message. */
  function RenderLine(timestamp: bool, now: LocalTime, qualifier: string, text: string): string {
    StampOf(timestamp, now) + qualifier + " " + text
  }

  /** Where each part of a rendered line sits. */
  lemma RenderLineFields(timestamp: bool, now: LocalTime, qualifier: string, text: string)
    requires timestamp ==> ValidClock(now)
    ensures var line := RenderLine(timestamp, now, qualifier, text);
      var k := if timestamp then 16 else 0;
      && |line| == k + |qualifier| + 1 + |text|
      && line[..k] == StampOf(timestamp, now)
      && line[k..k + |qualifier|] == qualifier
      && line[k + |qualifier|] == ' '
      && line[k + |qualifier| + 1..] == text
  {
    if timestamp {
      TimestampLayout(now);
    }
    var line := RenderLine(timestamp, now, qualifier, text);
    var k := if timestamp then 16 else 0;
    assert line == StampOf(timestamp, now) + qualifier + " " + text;
    assert line[k..k + |qualifier|] == qualifier;
  }
}
