/** The names of the input and output files: `generateInputFilename`, `generateFileName` and the date
    cutover in src/util.c, and their counterparts in scripts/link_input.py. */
module FileNames {
  import opened CString
  import Calendar

  // ----- Numbers in names -----

  function DigitChar(d: int): char
    requires 0 <= d < 10
  {
    '0' + d as char
  }

  /** `printf` of a number in at least `width` digits, zeros in front. */
  function Padded(n: nat, width: nat): (s: string)
    ensures |s| >= width
    decreases n, width
  {
    if n == 0 && width == 0 then []
    else Padded(n / 10, if width > 0 then width - 1 else 0) + [DigitChar(n % 10)]
  }

  function Pow10(w: nat): (p: nat)
    ensures p > 0
  {
    if w == 0 then 1 else 10 * Pow10(w - 1)
  }

  lemma {:induction false} PaddedWidth(n: nat, w: nat)
    requires n < Pow10(w)
    ensures |Padded(n, w)| == w
  {
    if w > 0 { PaddedWidth(n / 10, w - 1); }
  }

  /** Printed numbers can be read back. */
  lemma {:induction false} PaddedIsInjective(a: nat, b: nat, w: nat)
    requires Padded(a, w) == Padded(b, w)
    ensures a == b
    decreases a + b + w
  {
    var sa, sb := Padded(a, w), Padded(b, w);
    if sa == [] {
    } else {
      var w' := if w > 0 then w - 1 else 0;
      LastDigit(a, w);
      LastDigit(b, w);
      assert sa[..|sa| - 1] == sb[..|sb| - 1];
      PaddedIsInjective(a / 10, b / 10, w');
      assert a % 10 == b % 10;
    }
  }

  lemma LastDigit(n: nat, w: nat)
    requires Padded(n, w) != []
    ensures var s := Padded(n, w);
            && s[..|s| - 1] == Padded(n / 10, if w > 0 then w - 1 else 0)
            && s[|s| - 1] as int == '0' as int + n % 10
  {
  }

  lemma {:induction false} StrcmpAppend(p: string, q: string, a: char, b: char)
    requires |p| == |q|
    ensures Strcmp(p + [a], q + [b]) == if p == q then a as int - b as int else Strcmp(p, q)
    decreases |p|
  {
    if p == [] {
      assert p + [a] == [a] && q + [b] == [b];
    } else {
      assert (p + [a])[1..] == p[1..] + [a] && (q + [b])[1..] == q[1..] + [b];
      assert p == [p[0]] + p[1..] && q == [q[0]] + q[1..];
      StrcmpAppend(p[1..], q[1..], a, b);
    }
  }

  /** Numbers printed in the same width compare as strings as they do as numbers. */
  lemma {:induction false} PaddedOrder(a: nat, b: nat, w: nat)
    requires a < Pow10(w) && b < Pow10(w)
    ensures Strcmp(Padded(a, w), Padded(b, w)) < 0 <==> a < b
  {
    PaddedWidth(a, w);
    PaddedWidth(b, w);
    if w > 0 {
      PaddedWidth(a / 10, w - 1);
      PaddedWidth(b / 10, w - 1);
      PaddedOrder(a / 10, b / 10, w - 1);
      if Padded(a / 10, w - 1) == Padded(b / 10, w - 1) { PaddedIsInjective(a / 10, b / 10, w - 1); }
      StrcmpAppend(Padded(a / 10, w - 1), Padded(b / 10, w - 1), DigitChar(a % 10), DigitChar(b % 10));
    }
  }

  lemma PaddedPair(a: nat, b: nat, w: nat)
    requires b < 100
    ensures Padded(a * 100 + b, w + 2) == Padded(a, w) + Padded(b, 2)
  {
    var n := a * 100 + b;
    assert n / 10 == a * 10 + b / 10 && n % 10 == b % 10;
    assert (n / 10) / 10 == a && (n / 10) % 10 == b / 10;
    assert Padded(n / 10, w + 1) == Padded(a, w) + [DigitChar(b / 10)];
    assert Padded(b / 10, 1) == Padded(0, 0) + [DigitChar(b / 10)];
    assert Padded(b, 2) == Padded(b / 10, 1) + [DigitChar(b % 10)];
  }

  // ----- The cutover -----

  /** The date and hour of a model run. */
  predicate IsCycle(d: Calendar.Date) {
    Calendar.Valid(d) && 0 <= d.yr <= 9999 && d.mn == 0
  }

  const CUTOVER := Calendar.Date(2020, 9, 23, 12, 0)

  /** "%04d%02d%02d%02d" of a date. */
  function DateString(d: Calendar.Date): string
    requires IsCycle(d)
  {
    Padded(d.yr, 4) + Padded(d.mo, 2) + Padded(d.dy, 2) + Padded(d.hr, 2)
  }

  /** The test every function of the cutover makes: `strcmp` with "2020092312". */
  predicate BeforeCutover(d: Calendar.Date)
    requires IsCycle(d)
  {
    Strcmp(DateString(d), "2020092312") < 0
  }

  function DateNumber(d: Calendar.Date): int {
    ((d.yr * 100 + d.mo) * 100 + d.dy) * 100 + d.hr
  }

  lemma TenDigits()
    ensures Pow10(10) == 10000000000
  {
    assert Pow10(4) == 10000;
    assert Pow10(7) == 1000 * Pow10(4);
    assert Pow10(10) == 1000 * Pow10(7);
  }

  /** Dates count up as their numbers do. */
  lemma DateNumbersAreChronological(a: Calendar.Date, b: Calendar.Date)
    requires IsCycle(a) && IsCycle(b)
    ensures 0 <= DateNumber(a) < 10000000000
    ensures DateNumber(a) < DateNumber(b) <==> Calendar.Before(a, b)
    ensures DateNumber(a) == DateNumber(b) ==> a == b
  {
  }

  lemma DateNumberHasTenDigits(d: Calendar.Date)
    requires IsCycle(d)
    ensures 0 <= DateNumber(d) < Pow10(10)
  {
    DateNumbersAreChronological(d, d);
    TenDigits();
  }

  lemma DateStringIsNumber(d: Calendar.Date)
    requires IsCycle(d)
    ensures DateNumber(d) >= 0 && DateString(d) == Padded(DateNumber(d), 10)
  {
    ThreePairs(d.yr, d.mo, d.dy, d.hr, 4);
  }

  lemma ThreePairs(a: nat, b: nat, c: nat, d: nat, w: nat)
    requires b < 100 && c < 100 && d < 100
    ensures Padded(a, w) + Padded(b, 2) + Padded(c, 2) + Padded(d, 2)
         == Padded(((a * 100 + b) * 100 + c) * 100 + d, w + 6)
  {
    TwoPairs(a, b, c, w);
    PaddedPair((a * 100 + b) * 100 + c, d, w + 4);
  }

  lemma TwoPairs(a: nat, b: nat, c: nat, w: nat)
    requires b < 100 && c < 100
    ensures Padded(a, w) + Padded(b, 2) + Padded(c, 2) == Padded((a * 100 + b) * 100 + c, w + 4)
  {
    PaddedPair(a, b, w);
    PaddedPair(a * 100 + b, c, w + 2);
  }

  lemma TwoDigits(n: nat)
    requires n < 100
    ensures Padded(n, 2) == [DigitChar(n / 10), DigitChar(n % 10)]
  {
    LastDigit(n, 2);
    LastDigit(n / 10, 1);
    assert Padded(0, 0) == [];
  }

  function MonthDayHour(d: Calendar.Date): string
    requires IsCycle(d)
  {
    Padded(d.mo, 2) + Padded(d.dy, 2) + Padded(d.hr, 2)
  }

  lemma DateStringParts(d: Calendar.Date)
    requires IsCycle(d)
    ensures DateString(d) == Padded(d.yr, 4) + MonthDayHour(d)
  {
  }

  lemma CutoverString()
    ensures DateString(CUTOVER) == "2020092312"
  {
    TwoDigits(20);
    TwoDigits(9);
    TwoDigits(23);
    TwoDigits(12);
    PaddedPair(20, 20, 2);
    assert Padded(2020, 4) == "2020" && MonthDayHour(CUTOVER) == "092312";
    DateStringParts(CUTOVER);
  }

  /** Comparing the printed dates compares the dates. */
  lemma DateStringsAreChronological(a: Calendar.Date, b: Calendar.Date)
    requires IsCycle(a) && IsCycle(b)
    ensures Strcmp(DateString(a), DateString(b)) < 0 <==> Calendar.Before(a, b)
  {
    DateStringIsNumber(a);
    DateStringIsNumber(b);
    DateNumberHasTenDigits(a);
    DateNumberHasTenDigits(b);
    PaddedOrder(DateNumber(a), DateNumber(b), 10);
    DateNumbersAreChronological(a, b);
  }

  lemma CutoverIsChronological(d: Calendar.Date)
    requires IsCycle(d)
    ensures BeforeCutover(d) <==> Calendar.Before(d, CUTOVER)
  {
    CutoverString();
    DateStringsAreChronological(d, CUTOVER);
  }

  /** `get_n_members`, `get_n_lat` and `get_n_lon`. */
  function NMembers(d: Calendar.Date): nat
    requires IsCycle(d)
  {
    if BeforeCutover(d) then 21 else 31
  }

  function NLat(d: Calendar.Date): nat
    requires IsCycle(d)
  {
    if BeforeCutover(d) then 181 else 361
  }

  function NLon(d: Calendar.Date): nat
    requires IsCycle(d)
  {
    if BeforeCutover(d) then 360 else 720
  }

  /** `get_n_points`. */
  function NPoints(d: Calendar.Date): nat
    requires IsCycle(d)
  {
    NLat(d) * NLon(d)
  }

  /** Before 12 UTC on 23 September 2020 there are 21 members on a grid of one degree, and 31 on one of half a
      degree from then on. */
  lemma CycleSizes(d: Calendar.Date)
    requires IsCycle(d)
    ensures NMembers(d) == |GetMembers(d)|
    ensures if Calendar.Before(d, Calendar.Date(2020, 9, 23, 12, 0))
            then NMembers(d) == 21 && NLat(d) == 181 && NLon(d) == 360 && NPoints(d) == 65160
            else NMembers(d) == 31 && NLat(d) == 361 && NLon(d) == 720 && NPoints(d) == 259920
  {
    CutoverIsChronological(d);
  }

  // ----- Input names -----

  function MemberString(em: nat): string {
    (if em == 0 then "c" else "p") + Padded(em, 2)
  }

  function Letter(f: nat): string {
    if f == 0 then "a" else "b"
  }

  /** "/ge%s.t%02dz.pgrb2%s" of a member, a run hour and a file letter. */
  function FileStem(member: string, d: Calendar.Date, letter: string): string
    requires IsCycle(d)
  {
    "/ge" + (member + (".t" + (Padded(d.hr, 2) + ("z.pgrb2" + letter))))
  }

  /** The end of an input name before and after the cutover. */
  function FileEnd(early: bool, h: nat): string {
    if early then "f" + Padded(h, 2) else ".0p50.f" + Padded(h, 3)
  }

  /** `generateInputFilename`. */
  function InputName(prefix: string, fileNumber: nat, d: Calendar.Date, fff: nat, em: nat): string
    requires IsCycle(d)
  {
    (prefix + "/")
    + (DateString(d) + (FileStem(MemberString(em), d, Letter(fileNumber)) + FileEnd(BeforeCutover(d), fff)))
  }

  const FORECAST_HOURS := 384

  predicate IsForecastHour(h: int) {
    0 <= h <= FORECAST_HOURS && h % 6 == 0
  }

  /** The formats of the source, from left to right. */
  lemma InputNameReads(prefix: string, f: nat, d: Calendar.Date, h: nat, em: nat)
    requires IsCycle(d)
    ensures var start := prefix + ("/" + (DateString(d) + "/ge"));
            var member := (if em == 0 then "c" else "p") + Padded(em, 2);
            var run := ".t" + (Padded(d.hr, 2) + ("z.pgrb2" + if f == 0 then "a" else "b"));
            var end := if Calendar.Before(d, Calendar.Date(2020, 9, 23, 12, 0)) then "f" + Padded(h, 2)
                       else ".0p50.f" + Padded(h, 3);
            InputName(prefix, f, d, h, em) == start + (member + (run + end))
  {
    CutoverIsChronological(d);
    var member, letter := MemberString(em), Letter(f);
    var run, end := ".t" + (Padded(d.hr, 2) + ("z.pgrb2" + letter)), FileEnd(BeforeCutover(d), h);
    Regroup(prefix, "/", DateString(d) + "/ge");
    Regroup("/ge", member + run, end);
    Regroup(member, run, end);
    Regroup(DateString(d), "/ge", member + (run + end));
    Regroup(prefix + "/", DateString(d) + "/ge", member + (run + end));
  }

  /** The main loop opens an A and a B file for each member and forecast hour. */
  predicate IsInput(d: Calendar.Date, f: nat, em: nat, h: nat)
    requires IsCycle(d)
  {
    f < 2 && em < NMembers(d) && IsForecastHour(h)
  }

  /** These are two files for each of 65 steps of six hours and each of 21 or 31 members. */
  lemma InputsAre(d: Calendar.Date, f: nat, em: nat, h: nat)
    requires IsCycle(d)
    ensures IsInput(d, f, em, h)
       <==> f < 2 && em < (if Calendar.Before(d, Calendar.Date(2020, 9, 23, 12, 0)) then 21 else 31)
            && exists k :: 0 <= k < 65 && h == 6 * k
  {
    CutoverIsChronological(d);
    assert h % 6 == 0 ==> h == 6 * (h / 6);
  }

  ghost predicate IsOpened(prefix: string, d: Calendar.Date, name: string)
    requires IsCycle(d)
  {
    exists f: nat, em: nat, h: nat ::
      IsInput(d, f, em, h) && name == InputName(prefix, f, d, h, em)
  }

  // ----- The linking script -----

  /** `get_filename`: here the cutover is a comparison of dates. */
  function GetFilename(directory: string, d: Calendar.Date, member: string, hour: nat, gribType: string): string
    requires IsCycle(d)
  {
    directory + (FileStem(member, d, gribType) + FileEnd(Calendar.Before(d, CUTOVER), hour))
  }

  /** `get_members`. */
  function GetMembers(d: Calendar.Date): seq<string>
    requires IsCycle(d)
  {
    seq(if Calendar.Before(d, CUTOVER) then 21 else 31, m requires 0 <= m => MemberString(m))
  }

  /** `forecast_hours`: range(0, 385, 6). */
  function ForecastHours(): seq<nat> {
    seq(65, k => 6 * k)
  }

  /** "{input_dir}/%Y%m%d%H" of a date. Whether `%Y` prints four digits for a year before 1000 is up to the
      platform; `year` is what it prints. */
  function LinkDirectory(inputDir: string, year: string, d: Calendar.Date): string
    requires IsCycle(d)
  {
    (inputDir + "/") + (year + MonthDayHour(d))
  }

  /** `get_link_filenames`, as the set of names in the list. */
  ghost predicate IsLinked(inputDir: string, year: string, d: Calendar.Date, name: string)
    requires IsCycle(d)
  {
    exists gribType, member, hour ::
      gribType in ["a", "b"] && member in GetMembers(d) && hour in ForecastHours()
      && name == GetFilename(LinkDirectory(inputDir, year, d), d, member, hour, gribType)
  }

  lemma Regroup(a: string, b: string, c: string)
    ensures (a + b) + c == a + (b + c)
  {
  }

  /** The script and the program print the same name for the same file exactly when `%Y` prints four digits. */
  lemma NamesAgree(inputDir: string, year: string, d: Calendar.Date, f: nat, em: nat, h: nat)
    requires IsCycle(d) && f < 2
    ensures InputName(inputDir, f, d, h, em)
         == GetFilename(LinkDirectory(inputDir, year, d), d, MemberString(em), h, Letter(f))
       <==> year == Padded(d.yr, 4)
  {
    CutoverIsChronological(d);
    var end := FileStem(MemberString(em), d, Letter(f)) + FileEnd(BeforeCutover(d), h);
    DateStringParts(d);
    Regroup(inputDir + "/", year + MonthDayHour(d), end);
    SameDirectory(inputDir + "/", Padded(d.yr, 4), year, MonthDayHour(d), end);
  }

  lemma SameDirectory(prefix: string, a: string, b: string, rest: string, end: string)
    ensures prefix + ((a + rest) + end) == prefix + ((b + rest) + end) <==> a == b
  {
    if prefix + ((a + rest) + end) == prefix + ((b + rest) + end) {
      SplitLeft(prefix, (a + rest) + end, prefix, (b + rest) + end);
      SplitRight(a + rest, end, b + rest, end);
      SplitRight(a, rest, b, rest);
    }
  }

  /** The script links exactly the files the program opens, if and only if `%Y` prints four digits. */
  lemma LinkedAreOpened(inputDir: string, year: string, d: Calendar.Date)
    requires IsCycle(d) && IsNumeral(year)
    ensures (forall name :: IsLinked(inputDir, year, d, name) <==> IsOpened(inputDir, d, name))
       <==> year == Padded(d.yr, 4)
  {
    if year == Padded(d.yr, 4) {
      forall name ensures IsLinked(inputDir, year, d, name) <==> IsOpened(inputDir, d, name) {
        if IsOpened(inputDir, d, name) { OpenedIsLinked(inputDir, year, d, name); }
        if IsLinked(inputDir, year, d, name) { LinkedIsOpened(inputDir, year, d, name); }
      }
    } else {
      var name := InputName(inputDir, 0, d, 0, 0);
      CutoverIsChronological(d);
      assert IsForecastHour(0) && IsOpened(inputDir, d, name);
      if IsLinked(inputDir, year, d, name) { LinkedHasYear(inputDir, year, d, name); }
    }
  }

  predicate IsNumeral(s: string) {
    forall i :: 0 <= i < |s| ==> '0' <= s[i] <= '9'
  }

  lemma {:induction false} PaddedIsNumeral(n: nat, w: nat)
    ensures IsNumeral(Padded(n, w))
  {
    if n > 0 || w > 0 { PaddedIsNumeral(n / 10, if w > 0 then w - 1 else 0); }
  }

  /** Numerals before a slash are told apart by it. */
  lemma NumeralsBeforeSlash(a: string, x: string, b: string, y: string)
    requires IsNumeral(a) && IsNumeral(b) && a + ("/" + x) == b + ("/" + y)
    ensures a == b
  {
    var s := a + ("/" + x);
    assert s[|a|] == '/' && s[|b|] == '/';
    assert forall i :: 0 <= i < |a| ==> s[i] == a[i];
    assert forall i :: 0 <= i < |b| ==> s[i] == b[i];
    SplitLeft(a, "/" + x, b, "/" + y);
  }

  lemma MonthDayHourIsNumeral(d: Calendar.Date)
    requires IsCycle(d)
    ensures IsNumeral(MonthDayHour(d))
  {
    PaddedIsNumeral(d.mo, 2);
    PaddedIsNumeral(d.dy, 2);
    PaddedIsNumeral(d.hr, 2);
  }

  /** A stem starts with a slash. */
  function AfterSlash(member: string, d: Calendar.Date, letter: string, end: string): (x: string)
    requires IsCycle(d)
    ensures FileStem(member, d, letter) + end == "/" + x
  {
    var stem := FileStem(member, d, letter);
    assert stem == "/" + stem[1..];
    stem[1..] + end
  }

  /** An opened name that is linked shows the year in four digits. */
  lemma LinkedHasYear(inputDir: string, year: string, d: Calendar.Date, name: string)
    requires IsCycle(d) && IsNumeral(year)
    requires name == InputName(inputDir, 0, d, 0, 0) && IsLinked(inputDir, year, d, name)
    ensures year == Padded(d.yr, 4)
  {
    var gribType, member, hour :|
      gribType in ["a", "b"] && member in GetMembers(d) && hour in ForecastHours()
      && name == GetFilename(LinkDirectory(inputDir, year, d), d, member, hour, gribType);
    var x := AfterSlash(MemberString(0), d, Letter(0), FileEnd(BeforeCutover(d), 0));
    var y := AfterSlash(member, d, gribType, FileEnd(Calendar.Before(d, CUTOVER), hour));
    var date, linked := DateString(d), year + MonthDayHour(d);
    Regroup(inputDir + "/", linked, "/" + y);
    SplitLeft(inputDir + "/", date + ("/" + x), inputDir + "/", linked + ("/" + y));
    DateStringParts(d);
    PaddedIsNumeral(d.yr, 4);
    MonthDayHourIsNumeral(d);
    NumeralsBeforeSlash(date, x, linked, y);
    SplitRight(Padded(d.yr, 4), MonthDayHour(d), year, MonthDayHour(d));
  }

  lemma OpenedIsLinked(inputDir: string, year: string, d: Calendar.Date, name: string)
    requires IsCycle(d) && year == Padded(d.yr, 4) && IsOpened(inputDir, d, name)
    ensures IsLinked(inputDir, year, d, name)
  {
    CutoverIsChronological(d);
    var f: nat, em: nat, h: nat :|
      IsInput(d, f, em, h) && name == InputName(inputDir, f, d, h, em);
    NamesAgree(inputDir, year, d, f, em, h);
    assert GetMembers(d)[em] == MemberString(em);
    assert ForecastHours()[h / 6] == h;
    var gribType := if f == 0 then "a" else "b";
    assert gribType == ["a", "b"][f];
    assert gribType in ["a", "b"] && MemberString(em) in GetMembers(d) && h in ForecastHours();
  }

  lemma LinkedIsOpened(inputDir: string, year: string, d: Calendar.Date, name: string)
    requires IsCycle(d) && year == Padded(d.yr, 4) && IsLinked(inputDir, year, d, name)
    ensures IsOpened(inputDir, d, name)
  {
    CutoverIsChronological(d);
    var gribType, member, hour :|
      gribType in ["a", "b"] && member in GetMembers(d) && hour in ForecastHours()
      && name == GetFilename(LinkDirectory(inputDir, year, d), d, member, hour, gribType);
    var em: nat :| em < |GetMembers(d)| && GetMembers(d)[em] == member;
    var k :| 0 <= k < 65 && ForecastHours()[k] == hour;
    var f := if gribType == "a" then 0 else 1;
    OpensName(inputDir, year, d, f, em, k, name);
    InputNameIsOpened(inputDir, d, f, em, 6 * k);
  }

  lemma OpensName(prefix: string, year: string, d: Calendar.Date, f: nat, em: nat, k: nat, name: string)
    requires IsCycle(d) && year == Padded(d.yr, 4) && f < 2 && em < NMembers(d) && k < 65
    requires name == GetFilename(LinkDirectory(prefix, year, d), d, MemberString(em), 6 * k, Letter(f))
    ensures IsForecastHour(6 * k) && name == InputName(prefix, f, d, 6 * k, em)
  {
    SameName(prefix, year, d, f, em, 6 * k);
  }

  lemma SameName(inputDir: string, year: string, d: Calendar.Date, f: nat, em: nat, h: nat)
    requires IsCycle(d) && f < 2 && year == Padded(d.yr, 4)
    ensures InputName(inputDir, f, d, h, em)
         == GetFilename(LinkDirectory(inputDir, year, d), d, MemberString(em), h, Letter(f))
  {
    NamesAgree(inputDir, year, d, f, em, h);
  }

  lemma InputNameIsOpened(prefix: string, d: Calendar.Date, f: nat, em: nat, h: nat)
    requires IsCycle(d) && f < 2 && em < NMembers(d) && IsForecastHour(h)
    ensures IsOpened(prefix, d, InputName(prefix, f, d, h, em))
  {
  }

  // ----- The links the script creates -----

  /** `get_source_path`. */
  function SourcePath(sourceDir: string, year: string, d: Calendar.Date, gribType: string): string
    requires IsCycle(d)
  {
    sourceDir + "/gefs." + year + Padded(d.mo, 2) + Padded(d.dy, 2) + "/" + Padded(d.hr, 2)
    + if Calendar.Before(d, CUTOVER) then "/pgrb2" + gribType else "/atmos/pgrb2" + gribType + "p5"
  }

  /** Where the source file of the first cycle of the new names is. */
  lemma SourcePathAtCutover()
    ensures SourcePath("com", "2020", Calendar.Date(2020, 9, 23, 12, 0), "a") == "com/gefs.20200923/12/atmos/pgrb2ap5"
  {
    TwoDigits(9);
    TwoDigits(23);
    TwoDigits(12);
    var s1, s2 := "com" + "/gefs." + "2020", "com/gefs.2020" + "09" + "23";
    assert s1 == "com/gefs.2020";
    assert s2 == "com/gefs.20200923";
    assert "com/gefs.20200923" + "/" + "12" == "com/gefs.20200923/12";
    assert "/atmos/pgrb2" + "a" + "p5" == "/atmos/pgrb2ap5";
    assert "com/gefs.20200923/12" + "/atmos/pgrb2ap5" == "com/gefs.20200923/12/atmos/pgrb2ap5";
  }

  /** And that of the last cycle of the old ones. */
  lemma SourcePathBeforeCutover()
    ensures SourcePath("com", "2020", Calendar.Date(2020, 9, 23, 6, 0), "b") == "com/gefs.20200923/06/pgrb2b"
  {
    TwoDigits(9);
    TwoDigits(23);
    TwoDigits(6);
    var s1, s2 := "com" + "/gefs." + "2020", "com/gefs.2020" + "09" + "23";
    assert s1 == "com/gefs.2020";
    assert s2 == "com/gefs.20200923";
    assert "com/gefs.20200923" + "/" + "06" == "com/gefs.20200923/06";
    assert "/pgrb2" + "b" == "/pgrb2b";
    assert "com/gefs.20200923/06" + "/pgrb2b" == "com/gefs.20200923/06/pgrb2b";
  }

  /** `os.path.basename`: what follows the last slash. */
  function Basename(path: string): string {
    if path == [] || path[|path| - 1] == '/' then []
    else Basename(path[..|path| - 1]) + [path[|path| - 1]]
  }

  predicate NoSlash(s: string) {
    forall i :: 0 <= i < |s| ==> s[i] != '/'
  }

  lemma {:induction false} BasenameIs(directory: string, name: string)
    requires NoSlash(name)
    ensures Basename((directory + "/") + name) == name
    decreases |name|
  {
    var path := (directory + "/") + name;
    if name == [] {
      assert path[|path| - 1] == '/';
    } else {
      var n := |name| - 1;
      BasenameIs(directory, name[..n]);
      assert path[..|path| - 1] == (directory + "/") + name[..n];
      assert path[|path| - 1] == name[n];
    }
  }

  /** A file name without its directory. */
  function BareName(d: Calendar.Date, member: string, hour: nat, gribType: string): string
    requires IsCycle(d)
  {
    "ge" + (member + (".t" + (Padded(d.hr, 2) + ("z.pgrb2" + gribType)))) + FileEnd(Calendar.Before(d, CUTOVER), hour)
  }

  lemma FilenameParts(directory: string, d: Calendar.Date, member: string, hour: nat, gribType: string)
    requires IsCycle(d)
    ensures GetFilename(directory, d, member, hour, gribType)
         == (directory + "/") + BareName(d, member, hour, gribType)
  {
    var stem := member + (".t" + (Padded(d.hr, 2) + ("z.pgrb2" + gribType)));
    assert "/ge" + stem == "/" + ("ge" + stem);
    Regroup("/", "ge" + stem, FileEnd(Calendar.Before(d, CUTOVER), hour));
    Regroup(directory, "/", BareName(d, member, hour, gribType));
  }

  lemma NumeralHasNoSlash(s: string)
    requires IsNumeral(s)
    ensures NoSlash(s)
  {
  }

  lemma BareNameHasNoSlash(d: Calendar.Date, member: string, hour: nat, gribType: string)
    requires IsCycle(d) && NoSlash(member) && NoSlash(gribType)
    ensures NoSlash(BareName(d, member, hour, gribType))
  {
    PaddedIsNumeral(d.hr, 2);
    NumeralHasNoSlash(Padded(d.hr, 2));
    FileEndHasNoSlash(Calendar.Before(d, CUTOVER), hour);
  }

  lemma FileEndHasNoSlash(early: bool, h: nat)
    ensures NoSlash(FileEnd(early, h))
  {
    PaddedIsNumeral(h, 2);
    PaddedIsNumeral(h, 3);
    NumeralHasNoSlash(Padded(h, 2));
    NumeralHasNoSlash(Padded(h, 3));
  }

  lemma MembersHaveNoSlash(d: Calendar.Date, member: string)
    requires IsCycle(d) && member in GetMembers(d)
    ensures NoSlash(member)
  {
    var em: nat :| em < |GetMembers(d)| && GetMembers(d)[em] == member;
    PaddedIsNumeral(em, 2);
    NumeralHasNoSlash(Padded(em, 2));
  }

  /** The link `main` makes to a source file: the destination directory, a slash, and the file's basename. */
  function LinkTo(destination: string, source: string): string {
    (destination + "/") + Basename(source)
  }

  /** The links `main` creates, from the list of `get_source_filenames`. */
  ghost predicate IsCreated(inputDir: string, sourceDir: string, year: string, d: Calendar.Date, name: string)
    requires IsCycle(d)
  {
    exists gribType, member, hour ::
      gribType in ["a", "b"] && member in GetMembers(d) && hour in ForecastHours()
      && name == LinkTo(LinkDirectory(inputDir, year, d),
                        GetFilename(SourcePath(sourceDir, year, d, gribType), d, member, hour, gribType))
  }

  lemma LinkHasListedName(inputDir: string, source: string, year: string, d: Calendar.Date,
                          member: string, hour: nat, gribType: string)
    requires IsCycle(d) && member in GetMembers(d) && gribType in ["a", "b"]
    ensures LinkTo(LinkDirectory(inputDir, year, d), GetFilename(source, d, member, hour, gribType))
         == GetFilename(LinkDirectory(inputDir, year, d), d, member, hour, gribType)
  {
    MembersHaveNoSlash(d, member);
    BareNameHasNoSlash(d, member, hour, gribType);
    FilenameParts(source, d, member, hour, gribType);
    FilenameParts(LinkDirectory(inputDir, year, d), d, member, hour, gribType);
    BasenameIs(source, BareName(d, member, hour, gribType));
  }

  /** The links created are those of `get_link_filenames`, wherever the source files are. */
  lemma CreatedAreLinked(inputDir: string, sourceDir: string, year: string, d: Calendar.Date, name: string)
    requires IsCycle(d)
    ensures IsCreated(inputDir, sourceDir, year, d, name) <==> IsLinked(inputDir, year, d, name)
  {
    if IsCreated(inputDir, sourceDir, year, d, name) {
      var gribType, member, hour :|
        gribType in ["a", "b"] && member in GetMembers(d) && hour in ForecastHours()
        && name == LinkTo(LinkDirectory(inputDir, year, d),
                          GetFilename(SourcePath(sourceDir, year, d, gribType), d, member, hour, gribType));
      LinkHasListedName(inputDir, SourcePath(sourceDir, year, d, gribType), year, d, member, hour, gribType);
    }
    if IsLinked(inputDir, year, d, name) {
      var gribType, member, hour :|
        gribType in ["a", "b"] && member in GetMembers(d) && hour in ForecastHours()
        && name == GetFilename(LinkDirectory(inputDir, year, d), d, member, hour, gribType);
      LinkHasListedName(inputDir, SourcePath(sourceDir, year, d, gribType), year, d, member, hour, gribType);
    }
  }

  // ----- No two names coincide -----

  lemma SplitLeft(a: string, b: string, c: string, d: string)
    requires a + b == c + d && |a| == |c|
    ensures a == c && b == d
  {
    assert (a + b)[..|a|] == a && (c + d)[..|c|] == c;
    assert (a + b)[|a|..] == b && (c + d)[|c|..] == d;
  }

  lemma SplitRight(a: string, b: string, c: string, d: string)
    requires a + b == c + d && |b| == |d|
    ensures a == c && b == d
  {
    assert |a| == |c|;
    SplitLeft(a, b, c, d);
  }

  lemma DateStringWidths(d: Calendar.Date)
    requires IsCycle(d)
    ensures |Padded(d.yr, 4)| == 4 && |Padded(d.mo, 2)| == 2 && |Padded(d.dy, 2)| == 2 && |Padded(d.hr, 2)| == 2
  {
    assert Pow10(2) == 100 && Pow10(4) == 100 * Pow10(2);
    PaddedWidth(d.yr, 4);
    PaddedWidth(d.mo, 2);
    PaddedWidth(d.dy, 2);
    PaddedWidth(d.hr, 2);
  }

  lemma DateStringIsInjective(a: Calendar.Date, b: Calendar.Date)
    requires IsCycle(a) && IsCycle(b) && DateString(a) == DateString(b)
    ensures a == b
  {
    DateStringIsNumber(a);
    DateStringIsNumber(b);
    PaddedIsInjective(DateNumber(a), DateNumber(b), 10);
    DateNumbersAreChronological(a, b);
  }

  lemma MemberStringIsInjective(a: nat, b: nat)
    requires a < 100 && b < 100
    ensures |MemberString(a)| == 3
    ensures MemberString(a) == MemberString(b) ==> a == b
  {
    assert Pow10(2) == 100;
    PaddedWidth(a, 2);
    if MemberString(a) == MemberString(b) {
      assert MemberString(a)[1..] == Padded(a, 2) && MemberString(b)[1..] == Padded(b, 2);
      PaddedIsInjective(a, b, 2);
    }
  }

  lemma FileStemIsInjective(d: Calendar.Date, em: nat, f: nat, em': nat, f': nat)
    requires IsCycle(d) && em < 100 && em' < 100 && f < 2 && f' < 2
    ensures |FileStem(MemberString(em), d, Letter(f))| == 18
    ensures FileStem(MemberString(em), d, Letter(f)) == FileStem(MemberString(em'), d, Letter(f')) ==>
              em == em' && f == f'
  {
    DateStringWidths(d);
    MemberStringIsInjective(em, em');
    MemberStringIsInjective(em', em);
    if FileStem(MemberString(em), d, Letter(f)) == FileStem(MemberString(em'), d, Letter(f')) {
      var t, t' := Padded(d.hr, 2) + ("z.pgrb2" + Letter(f)), Padded(d.hr, 2) + ("z.pgrb2" + Letter(f'));
      SplitLeft("/ge", MemberString(em) + (".t" + t), "/ge", MemberString(em') + (".t" + t'));
      SplitLeft(MemberString(em), ".t" + t, MemberString(em'), ".t" + t');
      SplitLeft(".t", t, ".t", t');
      SplitLeft(Padded(d.hr, 2), "z.pgrb2" + Letter(f), Padded(d.hr, 2), "z.pgrb2" + Letter(f'));
      SplitLeft("z.pgrb2", Letter(f), "z.pgrb2", Letter(f'));
    }
  }

  lemma FileEndIsInjective(early: bool, h: nat, h': nat)
    requires FileEnd(early, h) == FileEnd(early, h')
    ensures h == h'
  {
    if early {
      SplitLeft("f", Padded(h, 2), "f", Padded(h', 2));
      PaddedIsInjective(h, h', 2);
    } else {
      SplitLeft(".0p50.f", Padded(h, 3), ".0p50.f", Padded(h', 3));
      PaddedIsInjective(h, h', 3);
    }
  }

  /** Different cycles, files, members or hours have different input names. */
  lemma InputNamesAreDistinct(prefix: string, f: nat, d: Calendar.Date, h: nat, em: nat,
                              f': nat, d': Calendar.Date, h': nat, em': nat)
    requires IsCycle(d) && IsCycle(d') && f < 2 && f' < 2 && em < 100 && em' < 100
    requires InputName(prefix, f, d, h, em) == InputName(prefix, f', d', h', em')
    ensures f == f' && d == d' && h == h' && em == em'
  {
    var a, a' := FileStem(MemberString(em), d, Letter(f)), FileStem(MemberString(em'), d', Letter(f'));
    var b, b' := FileEnd(BeforeCutover(d), h), FileEnd(BeforeCutover(d'), h');
    SplitLeft(prefix + "/", DateString(d) + (a + b), prefix + "/", DateString(d') + (a' + b'));
    DateStringWidths(d);
    DateStringWidths(d');
    SplitLeft(DateString(d), a + b, DateString(d'), a' + b');
    DateStringIsInjective(d, d');
    FileStemIsInjective(d, em, f, em', f');
    FileStemIsInjective(d, em', f', em, f);
    SplitLeft(a, b, a', b');
    FileEndIsInjective(BeforeCutover(d), h, h');
  }

  // ----- Output names -----

  const SHORT_NAMES: seq<string> :=
    ["pt", "sf6", "sf", "sm", "st", "ttr", "slhf", "ssr", "str", "sshf", "tcw", "tp", "tv", "tvt"]

  predicate IsVariable(id: int) {
    0 <= id < 14
  }

  /** `variableShortName`. */
  function ShortName(id: int): string
    requires IsVariable(id)
  {
    SHORT_NAMES[id]
  }

  /** `variableIdFromShortName`. */
  function IdOf(name: string): (id: int)
    ensures -1 <= id < 14
    ensures id != -1 ==> ShortName(id) == name
    ensures id == -1 ==> forall v :: IsVariable(v) ==> ShortName(v) != name
  {
    if name == "pt" then 0
    else if name == "sf6" then 1
    else if name == "sf" then 2
    else if name == "sm" then 3
    else if name == "st" then 4
    else if name == "ttr" then 5
    else if name == "slhf" then 6
    else if name == "ssr" then 7
    else if name == "str" then 8
    else if name == "sshf" then 9
    else if name == "tcw" then 10
    else if name == "tp" then 11
    else if name == "tv" then 12
    else if name == "tvt" then 13
    else -1
  }

  /** The names of the variables, by their numbers in src/ncdcTigge.h. */
  lemma ShortNamesAre()
    ensures ShortName(0) == "pt" && ShortName(1) == "sf6" && ShortName(2) == "sf" && ShortName(3) == "sm"
    ensures ShortName(4) == "st" && ShortName(5) == "ttr" && ShortName(6) == "slhf" && ShortName(7) == "ssr"
    ensures ShortName(8) == "str" && ShortName(9) == "sshf" && ShortName(10) == "tcw" && ShortName(11) == "tp"
    ensures ShortName(12) == "tv" && ShortName(13) == "tvt"
  {
  }

  lemma ShortNamesAreDistinct(a: int, b: int)
    requires IsVariable(a) && IsVariable(b) && ShortName(a) == ShortName(b)
    ensures a == b
  {
    assert IdOf(ShortName(a)) == a && IdOf(ShortName(b)) == b;
  }

  const POTENTIAL_TEMPERATURE := 0

  /** The fixed-width middle of an output name. */
  function OutputMiddle(id: int, d: Calendar.Date, fff: nat, em: nat): string
    requires IsVariable(id) && IsCycle(d)
  {
    DateString(d) + ("0000_glob_prod_" + (if em == 0 then "cf_" else "pf_")
                     + (if id == POTENTIAL_TEMPERATURE then "pv_" else "sl_"))
    + (Padded(fff, 4) + ("_" + (Padded(em, 3) + (if id == POTENTIAL_TEMPERATURE then "_0002_" else "_0000_"))))
  }

  /** `generateFileName`. */
  function OutputName(id: int, d: Calendar.Date, fff: nat, em: nat): string
    requires IsVariable(id) && IsCycle(d)
  {
    "z_tigge_c_kwbc_" + (OutputMiddle(id, d, fff, em) + (ShortName(id) + ".grib"))
  }

  /** The format of the source, from left to right: control forecasts are marked cf and perturbed ones pf, and only
      potential temperature (0) is on a potential vorticity level. */
  lemma OutputNameReads(id: int, d: Calendar.Date, h: nat, em: nat)
    requires IsVariable(id) && IsCycle(d)
    ensures var date := "z_tigge_c_kwbc_" + (DateString(d) + "0000_glob_prod_");
            var kind := (if em == 0 then "cf_" else "pf_") + (if id == 0 then "pv_" else "sl_");
            var numbers := Padded(h, 4) + ("_" + (Padded(em, 3) + if id == 0 then "_0002_" else "_0000_"));
            OutputName(id, d, h, em) == date + (kind + (numbers + (ShortName(id) + ".grib")))
  {
    var date, cf := DateString(d), if em == 0 then "cf_" else "pf_";
    var pv, short := if id == 0 then "pv_" else "sl_", ShortName(id) + ".grib";
    var numbers := Padded(h, 4) + ("_" + (Padded(em, 3) + if id == 0 then "_0002_" else "_0000_"));
    Regroup("0000_glob_prod_", cf, pv);
    Regroup(date, "0000_glob_prod_", cf + pv);
    Regroup(date + "0000_glob_prod_", cf + pv, numbers);
    Regroup(date + "0000_glob_prod_", (cf + pv) + numbers, short);
    Regroup(cf + pv, numbers, short);
    Regroup("z_tigge_c_kwbc_", date + "0000_glob_prod_", (cf + pv) + (numbers + short));
  }

  lemma OutputMiddleIsInjective(id: int, d: Calendar.Date, h: nat, em: nat, d': Calendar.Date, h': nat, em': nat)
    requires IsVariable(id) && IsCycle(d) && IsCycle(d')
    requires h < 10000 && h' < 10000 && em < 1000 && em' < 1000
    requires OutputMiddle(id, d, h, em) == OutputMiddle(id, d', h', em')
    ensures d == d' && h == h' && em == em'
  {
    DateStringWidths(d);
    DateStringWidths(d');
    NumberWidths(h, em);
    NumberWidths(h', em');
    var ll := if id == POTENTIAL_TEMPERATURE then "pv_" else "sl_";
    var a := "0000_glob_prod_" + (if em == 0 then "cf_" else "pf_") + ll;
    var a' := "0000_glob_prod_" + (if em' == 0 then "cf_" else "pf_") + ll;
    var end := if id == POTENTIAL_TEMPERATURE then "_0002_" else "_0000_";
    var b := Padded(h, 4) + ("_" + (Padded(em, 3) + end));
    var b' := Padded(h', 4) + ("_" + (Padded(em', 3) + end));
    SplitLeft(DateString(d) + a, b, DateString(d') + a', b');
    SplitLeft(DateString(d), a, DateString(d'), a');
    DateStringIsInjective(d, d');
    SplitLeft(Padded(h, 4), "_" + (Padded(em, 3) + end), Padded(h', 4), "_" + (Padded(em', 3) + end));
    SplitLeft("_", Padded(em, 3) + end, "_", Padded(em', 3) + end);
    SplitRight(Padded(em, 3), end, Padded(em', 3), end);
    PaddedIsInjective(h, h', 4);
    PaddedIsInjective(em, em', 3);
  }

  lemma NumberWidths(h: nat, em: nat)
    requires h < 10000 && em < 1000
    ensures |Padded(h, 4)| == 4 && |Padded(em, 3)| == 3
  {
    assert Pow10(3) == 1000 && Pow10(4) == 10 * Pow10(3);
    PaddedWidth(h, 4);
    PaddedWidth(em, 3);
  }

  lemma OutputMiddleWidth(id: int, d: Calendar.Date, h: nat, em: nat)
    requires IsVariable(id) && IsCycle(d) && h < 10000 && em < 1000
    ensures |OutputMiddle(id, d, h, em)| == 45
  {
    DateStringWidths(d);
    NumberWidths(h, em);
  }

  /** Different variables, cycles, hours or members have different output names. */
  lemma OutputNamesAreDistinct(id: int, d: Calendar.Date, h: nat, em: nat,
                               id': int, d': Calendar.Date, h': nat, em': nat)
    requires IsVariable(id) && IsVariable(id') && IsCycle(d) && IsCycle(d')
    requires h < 10000 && h' < 10000 && em < 1000 && em' < 1000
    requires OutputName(id, d, h, em) == OutputName(id', d', h', em')
    ensures id == id' && d == d' && h == h' && em == em'
  {
    OutputMiddleWidth(id, d, h, em);
    OutputMiddleWidth(id', d', h', em');
    var m, m' := OutputMiddle(id, d, h, em), OutputMiddle(id', d', h', em');
    SplitLeft("z_tigge_c_kwbc_", m + (ShortName(id) + ".grib"), "z_tigge_c_kwbc_", m' + (ShortName(id') + ".grib"));
    SplitLeft(m, ShortName(id) + ".grib", m', ShortName(id') + ".grib");
    SplitRight(ShortName(id), ".grib", ShortName(id'), ".grib");
    ShortNamesAreDistinct(id, id');
    OutputMiddleIsInjective(id, d, h, em, d', h', em');
  }
}
