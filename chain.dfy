/**
 * The Chain Game Collab schedule: one pinned message whose lines read
 * `*Day #<n>* (<t:<epoch>:d>): <status>`, where the status is `Open` or
 * `Reserved by <mention>`.
 *
 * `/chain claim` rewrites the lines of one day, `/chain updateschedule` seeds a
 * fresh schedule or rolls the window forward by one day. Both are modelled on
 * the message's lines (`content.splitlines()`); the wall clock (`now`) and the
 * epoch second of the first day at 10:00 are parameters.
 */
module Chain {
  import opened Wrappers
  import opened PyStrings

  /** SCHEDULE_DAYS: number of days a fresh schedule lists. */
  const ScheduleDays: nat := 8

  const SecondsPerDay: int := 86400

  /** `get_header_str()`. */
  function HeaderStr(): string {
    "**Reserved days:**\n"
  }

  /** Epoch second of day `day` at 10:00, `startEpoch` being that of day 1 (DATE_OFFSET at 10:00). */
  function DayEpoch(day: int, startEpoch: int): int {
    startEpoch + (day - 1) * SecondsPerDay
  }

  /** `get_day_timestamp(day)`: Discord's `<t:N:d>` date tag for day `day`. */
  function DayTimestamp(day: int, startEpoch: int): string {
    "<t:" + IntToString(DayEpoch(day, startEpoch)) + ":d>"
  }

  /** `get_day_str(day)`: the fixed head of day `day`'s line, before its status. */
  function DayStr(day: int, startEpoch: int): string {
    "*Day #" + IntToString(day) + "* (" + DayTimestamp(day, startEpoch) + "): "
  }

  // ---------------------------------------------------------------------------
  // Reading back a day line: `line.split(":")[1]` and `line.split("#")[1].split("*")[0]`
  // ---------------------------------------------------------------------------

  /** `int(line.split(":")[1])`, or `None` where Python raises (IndexError or ValueError). */
  function TimestampOf(line: string): Option<int> {
    var parts := Split(line, ':');
    if |parts| > 1 then ParseInt(parts[1]) else None
  }

  /** `line.split("#")[1].split("*")[0]`, or `None` where Python raises IndexError. */
  function DayIndexText(line: string): Option<string> {
    var parts := Split(line, '#');
    if |parts| > 1 then Some(Split(parts[1], '*')[0]) else None
  }

  lemma IntToStringChars(n: int)
    ensures forall k :: 0 <= k < |IntToString(n)| ==> IsDigit(IntToString(n)[k]) || IntToString(n)[k] == '-'
  {
  }

  lemma {:induction false} SplitNoSep(a: string, sep: char)
    requires sep !in a
    ensures Split(a, sep) == [a]
    decreases |a|
  {
    if |a| > 0 {
      SplitNoSep(a[1..], sep);
      assert [a[0]] + a[1..] == a;
    }
  }

  /** Splitting text whose first separator follows the separator-free `a`. */
  lemma {:induction false} SplitAfter(a: string, sep: char, b: string)
    requires sep !in a
    ensures Split(a + [sep] + b, sep) == [a] + Split(b, sep)
    decreases |a|
  {
    if |a| == 0 {
      assert a + [sep] + b == [sep] + b;
      assert ([sep] + b)[1..] == b;
    } else {
      SplitAfter(a[1..], sep, b);
      assert (a + [sep] + b)[1..] == a[1..] + [sep] + b;
      assert [a[0]] + a[1..] == a;
    }
  }

  /** The first part of a split begins with any separator-free prefix of the text. */
  lemma {:induction false} SplitHead(a: string, sep: char, b: string)
    requires sep !in a
    ensures Split(a + b, sep)[0] == a + Split(b, sep)[0]
    decreases |a|
  {
    if |a| > 0 {
      SplitHead(a[1..], sep, b);
      assert (a + b)[1..] == a[1..] + b;
      assert [a[0]] + a[1..] == a;
    } else {
      assert a + b == b;
    }
  }

  /** The second part of a split is the text between the first two separators. */
  lemma SecondField(a: string, sep: char, x: string, b: string)
    requires sep !in a && sep !in x
    ensures |Split(a + [sep] + x + [sep] + b, sep)| > 1 && Split(a + [sep] + x + [sep] + b, sep)[1] == x
  {
    assert a + [sep] + x + [sep] + b == a + [sep] + (x + [sep] + b);
    SplitAfter(a, sep, x + [sep] + b);
    SplitAfter(x, sep, b);
  }

  /** The bot's own day lines read back as the epoch second they were written with. */
  lemma DayLineTimestamp(day: int, startEpoch: int, status: string)
    ensures TimestampOf(DayStr(day, startEpoch) + status) == Some(DayEpoch(day, startEpoch))
  {
    var d, n := IntToString(day), IntToString(DayEpoch(day, startEpoch));
    IntToStringChars(day);
    IntToStringChars(DayEpoch(day, startEpoch));
    var a := "*Day #" + d + "* (<t";
    assert ':' !in a;
    assert ':' !in n;
    var line := DayStr(day, startEpoch) + status;
    assert line == a + [':'] + n + [':'] + ("d>): " + status);
    SecondField(a, ':', n, "d>): " + status);
    ParseIntToString(DayEpoch(day, startEpoch));
  }

  /** The text between the first "#" and the next "*" is what `DayIndexText` reads. */
  lemma IndexTextOf(a: string, x: string, b: string)
    requires '#' !in a && '#' !in x && '*' !in x
    ensures DayIndexText(a + ['#'] + x + ['*'] + b) == Some(x)
  {
    assert a + ['#'] + x + ['*'] + b == a + ['#'] + (x + ['*'] + b);
    SplitAfter(a, '#', x + ['*'] + b);
    SplitHead(x + ['*'], '#', b);
    SplitAfter(x, '*', Split(b, '#')[0]);
  }

  /** The bot's own day lines read back as the day number they were written with. */
  lemma DayLineIndex(day: int, startEpoch: int, status: string)
    ensures DayIndexText(DayStr(day, startEpoch) + status) == Some(IntToString(day))
  {
    var d := IntToString(day);
    IntToStringChars(day);
    assert '#' !in d && '*' !in d;
    var rest := " (" + DayTimestamp(day, startEpoch) + "): " + status;
    assert DayStr(day, startEpoch) + status == "*Day " + ['#'] + d + ['*'] + rest;
    IndexTextOf("*Day ", d, rest);
  }

  // ---------------------------------------------------------------------------
  // /chain claim
  // ---------------------------------------------------------------------------

  /** `line.startswith(f"*Day #{day}")`: a prefix test, so day 1 also matches days 10 to 19. */
  predicate IsDayLine(line: string, day: int) {
    StartsWith(line, "*Day #" + IntToString(day))
  }

  /** The line that replaces an open day when `mention` claims it. */
  function ReservedLine(day: int, startEpoch: int, mention: string): string {
    DayStr(day, startEpoch) + "Reserved by " + mention
  }

  datatype ClaimReply =
    | ScheduleMissing           // the channel has no message: Python's UnboundLocalError
    | AlreadyReserved           // "Day #<day> is already reserved."
    | DayNotFound               // "Day #<day> not found in the schedule."
    | Claimed(lines: seq<string>)  // the message is edited to these lines

  /**
   * What `claim` does to the schedule's lines: refused when any matching line
   * lacks "Open", not found when no line matches, otherwise every matching line
   * is replaced by the reservation and every other line kept as it is.
   */
  function ClaimedLines(lines: seq<string>, day: int, startEpoch: int, mention: string): seq<string> {
    seq(|lines|, k requires 0 <= k < |lines| =>
      if IsDayLine(lines[k], day) then ReservedLine(day, startEpoch, mention) else lines[k])
  }

  /** Some line is day `day`'s. */
  predicate HasDay(lines: seq<string>, day: int) {
    exists k :: 0 <= k < |lines| && IsDayLine(lines[k], day)
  }

  /** Some line of day `day` no longer says "Open". */
  predicate HasReserved(lines: seq<string>, day: int) {
    exists k :: 0 <= k < |lines| && IsDayLine(lines[k], day) && !Contains(lines[k], "Open")
  }

  function ClaimSpec(schedule: Option<seq<string>>, day: int, startEpoch: int, mention: string): ClaimReply {
    if schedule.None? then ScheduleMissing
    else
      var lines := schedule.value;
      if HasReserved(lines, day) then AlreadyReserved
      else if !HasDay(lines, day) then DayNotFound
      else Claimed(ClaimedLines(lines, day, startEpoch, mention))
  }

  /** One more line: its own edit is appended, and it may add a day line or a reserved one. */
  lemma ClaimSnoc(lines: seq<string>, x: string, day: int, startEpoch: int, mention: string)
    ensures ClaimedLines(lines + [x], day, startEpoch, mention) ==
      ClaimedLines(lines, day, startEpoch, mention) + [if IsDayLine(x, day) then ReservedLine(day, startEpoch, mention) else x]
    ensures HasDay(lines + [x], day) <==> HasDay(lines, day) || IsDayLine(x, day)
    ensures HasReserved(lines + [x], day) <==> HasReserved(lines, day) || (IsDayLine(x, day) && !Contains(x, "Open"))
  {
    ClaimedLinesSnoc(lines, x, day, startEpoch, mention);
    HasDaySnoc(lines, x, day);
    HasReservedSnoc(lines, x, day);
  }

  lemma ClaimedLinesSnoc(lines: seq<string>, x: string, day: int, startEpoch: int, mention: string)
    ensures ClaimedLines(lines + [x], day, startEpoch, mention) ==
      ClaimedLines(lines, day, startEpoch, mention) + [if IsDayLine(x, day) then ReservedLine(day, startEpoch, mention) else x]
  {
    var l := lines + [x];
    assert forall k :: 0 <= k < |lines| ==> l[k] == lines[k];
  }

  lemma HasDaySnoc(lines: seq<string>, x: string, day: int)
    ensures HasDay(lines + [x], day) <==> HasDay(lines, day) || IsDayLine(x, day)
  {
    var l := lines + [x];
    assert l[|lines|] == x;
    if HasDay(l, day) && !IsDayLine(x, day) {
      var k :| 0 <= k < |l| && IsDayLine(l[k], day);
      assert l[k] == lines[k];
    }
    if HasDay(lines, day) {
      var k :| 0 <= k < |lines| && IsDayLine(lines[k], day);
      assert l[k] == lines[k];
    }
  }

  lemma HasReservedSnoc(lines: seq<string>, x: string, day: int)
    ensures HasReserved(lines + [x], day) <==> HasReserved(lines, day) || (IsDayLine(x, day) && !Contains(x, "Open"))
  {
    var l := lines + [x];
    assert l[|lines|] == x;
    if HasReserved(l, day) && !(IsDayLine(x, day) && !Contains(x, "Open")) {
      var k :| 0 <= k < |l| && IsDayLine(l[k], day) && !Contains(l[k], "Open");
      assert l[k] == lines[k];
    }
    if HasReserved(lines, day) {
      var k :| 0 <= k < |lines| && IsDayLine(lines[k], day) && !Contains(lines[k], "Open");
      assert l[k] == lines[k];
    }
  }

  /** A claim edits the matching lines only, and is refused as not found exactly when no line matches. */
  lemma ClaimOutcome(schedule: Option<seq<string>>, day: int, startEpoch: int, mention: string)
    ensures var r := ClaimSpec(schedule, day, startEpoch, mention);
      && (r.Claimed? ==> schedule.Some? && |r.lines| == |schedule.value|)
      && (r.Claimed? ==> forall k :: 0 <= k < |schedule.value| && !IsDayLine(schedule.value[k], day) ==> r.lines[k] == schedule.value[k])
      && (r.Claimed? ==> forall k :: 0 <= k < |schedule.value| && IsDayLine(schedule.value[k], day) ==> r.lines[k] == ReservedLine(day, startEpoch, mention))
      && (r.Claimed? ==> exists k :: 0 <= k < |schedule.value| && IsDayLine(schedule.value[k], day))
      && (r == DayNotFound <==> schedule.Some? && forall k :: 0 <= k < |schedule.value| ==> !IsDayLine(schedule.value[k], day))
      && (r == AlreadyReserved <==> schedule.Some? && exists k :: 0 <= k < |schedule.value| && IsDayLine(schedule.value[k], day) && !Contains(schedule.value[k], "Open"))
  {
  }

  /** The claim handler's loop over the lines, with its early return on a reserved day. */
  method Claim(schedule: Option<seq<string>>, day: int, startEpoch: int, mention: string) returns (reply: ClaimReply)
    ensures reply == ClaimSpec(schedule, day, startEpoch, mention)
  {
    if schedule.None? {
      return ScheduleMissing;
    }
    var content := schedule.value;
    var finalContent: seq<string> := [];
    var dayFound := false;
    var i := 0;
    while i < |content|
      invariant 0 <= i <= |content|
      invariant finalContent == ClaimedLines(content[..i], day, startEpoch, mention)
      invariant !HasReserved(content[..i], day)
      invariant dayFound <==> HasDay(content[..i], day)
    {
      var line := content[i];
      ClaimSnoc(content[..i], line, day, startEpoch, mention);
      assert content[..i + 1] == content[..i] + [line];
      if IsDayLine(line, day) {
        dayFound := true;
        if Contains(line, "Open") {
          finalContent := finalContent + [ReservedLine(day, startEpoch, mention)];
        } else {
          assert IsDayLine(content[i], day) && !Contains(content[i], "Open");
          return AlreadyReserved;
        }
      } else {
        finalContent := finalContent + [line];
      }
      i := i + 1;
    }
    assert content[..i] == content;
    if !dayFound {
      return DayNotFound;
    }
    reply := Claimed(finalContent);
  }

  /** With a single line for the day, claiming it rewrites exactly that line. */
  lemma ClaimSingleLine(lines: seq<string>, day: int, startEpoch: int, mention: string, k: nat)
    requires k < |lines| && IsDayLine(lines[k], day) && Contains(lines[k], "Open")
    requires forall j :: 0 <= j < |lines| && j != k ==> !IsDayLine(lines[j], day)
    ensures ClaimSpec(Some(lines), day, startEpoch, mention) == Claimed(lines[k := ReservedLine(day, startEpoch, mention)])
  {
    var r := ClaimSpec(Some(lines), day, startEpoch, mention);
    assert !(exists j :: 0 <= j < |lines| && IsDayLine(lines[j], day) && !Contains(lines[j], "Open"));
    assert r.Claimed?;
    assert r.lines == lines[k := ReservedLine(day, startEpoch, mention)];
  }

  /** "Open" is absent from any text with no capital O in it. */
  lemma NoOpenWithoutO(s: string)
    requires 'O' !in s
    ensures !Contains(s, "Open")
  {
    ContainsIff(s, "Open");
    forall i: nat ensures !OccursAt(s, "Open", i) {
      if i + 4 <= |s| {
        assert s[i..i + 4][0] == s[i];
      }
    }
  }

  /** "Open" occurs in `a + b` with no capital O in `a` exactly when it occurs in `b`. */
  lemma {:induction false} OpenAfterPrefix(a: string, b: string)
    requires 'O' !in a
    ensures Contains(a + b, "Open") <==> Contains(b, "Open")
    decreases |a|
  {
    if |a| > 0 {
      assert (a + b)[1..] == a[1..] + b;
      OpenAfterPrefix(a[1..], b);
      assert (a + b)[0] == a[0] && a[0] != 'O';
    } else {
      assert a + b == b;
    }
  }

  lemma ReservedLineHasNoOpen(day: int, startEpoch: int, mention: string)
    requires !Contains(mention, "Open")
    ensures IsDayLine(ReservedLine(day, startEpoch, mention), day)
    ensures !Contains(ReservedLine(day, startEpoch, mention), "Open")
  {
    IntToStringChars(day);
    IntToStringChars(DayEpoch(day, startEpoch));
    var head := DayStr(day, startEpoch) + "Reserved by ";
    assert 'O' !in head;
    OpenAfterPrefix(head, mention);
    assert ReservedLine(day, startEpoch, mention) == head + mention;
    var p := "*Day #" + IntToString(day);
    assert ReservedLine(day, startEpoch, mention)[..|p|] == p;
  }

  /** A day just claimed cannot be claimed again: the second claim is refused and edits nothing. */
  lemma ClaimTwiceRefused(lines: seq<string>, day: int, startEpoch: int, mention: string, other: string)
    requires ClaimSpec(Some(lines), day, startEpoch, mention).Claimed?
    requires !Contains(mention, "Open")
    ensures ClaimSpec(Some(ClaimSpec(Some(lines), day, startEpoch, mention).lines), day, startEpoch, other) == AlreadyReserved
  {
    var claimed := ClaimSpec(Some(lines), day, startEpoch, mention).lines;
    ClaimOutcome(Some(lines), day, startEpoch, mention);
    ClaimOutcome(Some(claimed), day, startEpoch, other);
    var k :| 0 <= k < |lines| && IsDayLine(lines[k], day);
    ReservedLineHasNoOpen(day, startEpoch, mention);
    assert IsDayLine(claimed[k], day) && !Contains(claimed[k], "Open");
    assert exists j :: 0 <= j < |claimed| && IsDayLine(claimed[j], day) && !Contains(claimed[j], "Open");
  }

  /** The prefix match at work: claiming day 1 overwrites an open day-10 line with a day-1 reservation. */
  lemma ClaimDayOneTakesDayTen(startEpoch: int, mention: string)
    ensures ClaimSpec(Some([DayStr(10, startEpoch) + "Open"]), 1, startEpoch, mention)
         == Claimed([ReservedLine(1, startEpoch, mention)])
  {
    var line := DayStr(10, startEpoch) + "Open";
    assert IntToString(10) == "10";
    assert IntToString(1) == "1";
    assert line[..7] == "*Day #1";
    assert IsDayLine(line, 1);
    ContainsIff(line, "Open");
    assert OccursAt(line, "Open", |line| - 4);
    assert Contains([line][0], "Open");
    assert ClaimedLines([line], 1, startEpoch, mention) == [ReservedLine(1, startEpoch, mention)];
  }

  // ---------------------------------------------------------------------------
  // /chain updateschedule
  // ---------------------------------------------------------------------------

  /** `line.startswith("*Day")`: any day line, whatever its number. */
  predicate IsAnyDayLine(line: string) {
    StartsWith(line, "*Day")
  }

  /** The first day is stale when its date is more than one day before `now`. */
  predicate Stale(line: string, now: int) {
    TimestampOf(line).Some? && TimestampOf(line).value < now - SecondsPerDay
  }

  /** The loop's variables: `final_content`, `first_day`, `last_day_index` (as text) and `add_day`. */
  datatype Scan = Scan(kept: seq<string>, firstDay: bool, lastDayIndex: string, addDay: bool)

  /** One turn of the update loop; `None` where Python raises on a malformed day line. */
  function Step(st: Scan, line: string, now: int): Option<Scan> {
    if !IsAnyDayLine(line) then Some(st.(kept := st.kept + [line]))
    else if st.firstDay && TimestampOf(line).None? then None
    else if st.firstDay && Stale(line, now) then Some(st.(firstDay := false, addDay := true))
    else if DayIndexText(line).None? then None
    else Some(st.(kept := st.kept + [line], firstDay := false, lastDayIndex := DayIndexText(line).value))
  }

  /** The loop run over `lines` from the start; `last_day_index` starts as 0, written "0". */
  function ScanLines(lines: seq<string>, now: int): Option<Scan>
    decreases |lines|
  {
    if |lines| == 0 then Some(Scan([], true, "0", false))
    else
      var prev := ScanLines(lines[..|lines| - 1], now);
      if prev.None? then None else Step(prev.value, lines[|lines| - 1], now)
  }

  datatype ScheduleEdit =
    | NoPermission               // "You do not have permission to use this command."
    | Raises                     // a malformed schedule line makes the handler raise
    | Edited(lines: seq<string>) // the message is edited to these lines

  /** After the scan: the kept lines, plus one open day past the last one when the first day was stale. */
  function Finish(scan: Option<Scan>, startEpoch: int): ScheduleEdit {
    if scan.None? then Raises
    else if !scan.value.addDay then Edited(scan.value.kept)
    else
      var last := ParseInt(scan.value.lastDayIndex);
      if last.None? then Raises
      else Edited(scan.value.kept + [DayStr(last.value + 1, startEpoch) + "Open"])
  }

  /** The update of a non-empty schedule: the scan, then the appended day when the first one was stale. */
  function ExtendSchedule(lines: seq<string>, now: int, startEpoch: int): ScheduleEdit {
    Finish(ScanLines(lines, now), startEpoch)
  }

  /** One more line runs one more turn of the loop. */
  lemma ScanSnoc(lines: seq<string>, i: nat, now: int)
    requires i < |lines|
    ensures ScanLines(lines[..i + 1], now) ==
      if ScanLines(lines[..i], now).None? then None else Step(ScanLines(lines[..i], now).value, lines[i], now)
  {
    assert lines[..i + 1][..i] == lines[..i];
  }

  /** Once a prefix of the lines makes the loop raise, the whole loop raises. */
  lemma {:induction false} ScanRaisesOnward(lines: seq<string>, i: nat, now: int)
    requires i <= |lines|
    requires ScanLines(lines[..i], now).None?
    ensures ScanLines(lines, now).None?
    decreases |lines| - i
  {
    if i < |lines| {
      assert lines[..i + 1][..i] == lines[..i];
      ScanRaisesOnward(lines, i + 1, now);
    } else {
      assert lines[..i] == lines;
    }
  }

  /** A fresh schedule: the header, then days 1 to SCHEDULE_DAYS, each open. */
  function SeedSchedule(startEpoch: int): (r: seq<string>)
    ensures |r| == ScheduleDays + 1 && r[0] == HeaderStr()
    ensures forall d :: 1 <= d <= ScheduleDays ==> r[d] == DayStr(d, startEpoch) + "Open"
  {
    [HeaderStr()] + seq(ScheduleDays, k requires 0 <= k < ScheduleDays => DayStr(k + 1, startEpoch) + "Open")
  }

  /** What `updateschedule` does: permission check, then seed an empty channel or extend the schedule. */
  function UpdateScheduleSpec(canManageGuild: bool, channelEmpty: bool, lines: seq<string>, now: int, startEpoch: int): ScheduleEdit {
    if !canManageGuild then NoPermission
    else if channelEmpty then Edited(SeedSchedule(startEpoch))
    else ExtendSchedule(lines, now, startEpoch)
  }

  /** The seeding loop of `updateschedule`, run when the channel is empty. */
  method Seed(startEpoch: int) returns (finalContent: seq<string>)
    ensures finalContent == SeedSchedule(startEpoch)
  {
    finalContent := [HeaderStr()];
    var i := 1;
    while i < ScheduleDays + 1
      invariant 1 <= i <= ScheduleDays + 1
      invariant |finalContent| == i && finalContent[0] == HeaderStr()
      invariant forall d :: 1 <= d < i ==> finalContent[d] == DayStr(d, startEpoch) + "Open"
    {
      finalContent := finalContent + [DayStr(i, startEpoch) + "Open"];
      i := i + 1;
    }
    SeededIsSchedule(finalContent, startEpoch);
  }

  /** The header followed by the open days 1 to SCHEDULE_DAYS is the fresh schedule. */
  lemma SeededIsSchedule(lines: seq<string>, startEpoch: int)
    requires |lines| == ScheduleDays + 1 && lines[0] == HeaderStr()
    requires forall d :: 1 <= d <= ScheduleDays ==> lines[d] == DayStr(d, startEpoch) + "Open"
    ensures lines == SeedSchedule(startEpoch)
  {
    var s := SeedSchedule(startEpoch);
    forall k | 0 <= k < |lines| ensures lines[k] == s[k] {
      if k > 0 {
        assert lines[k] == DayStr(k, startEpoch) + "Open";
      }
    }
  }

  /** The scanning loop of `updateschedule`: `None` where a malformed day line makes it raise. */
  method ScanSchedule(lines: seq<string>, now: int) returns (scan: Option<Scan>)
    ensures scan == ScanLines(lines, now)
  {
    var st := Scan([], true, "0", false);
    var i := 0;
    while i < |lines|
      invariant 0 <= i <= |lines|
      invariant ScanLines(lines[..i], now) == Some(st)
    {
      ScanSnoc(lines, i, now);
      var next := Turn(st, lines[i], now);
      if next.None? {
        ScanRaisesOnward(lines, i + 1, now);
        return None;
      }
      st := next.value;
      i := i + 1;
    }
    assert lines[..|lines|] == lines;
    scan := Some(st);
  }

  /** The body of the scanning loop for one line: `None` where `int(...)` or the split raises. */
  method Turn(st: Scan, line: string, now: int) returns (next: Option<Scan>)
    ensures next == Step(st, line, now)
  {
    var finalContent := st.kept;
    var firstDay := st.firstDay;
    var lastDayIndex := st.lastDayIndex;
    var addDay := st.addDay;
    if IsAnyDayLine(line) {
      if firstDay {
        firstDay := false;
        var timestamp := TimestampOf(line);
        if timestamp.None? {
          return None;
        }
        if timestamp.value < now - SecondsPerDay {
          return Some(Scan(finalContent, firstDay, lastDayIndex, true));
        }
      }
      var index := DayIndexText(line);
      if index.None? {
        return None;
      }
      lastDayIndex := index.value;
    }
    next := Some(Scan(finalContent + [line], firstDay, lastDayIndex, addDay));
  }

  /** The scan, then the day appended after the last one when the first day was stale. */
  method Extend(lines: seq<string>, now: int, startEpoch: int) returns (edit: ScheduleEdit)
    ensures edit == ExtendSchedule(lines, now, startEpoch)
  {
    var scan := ScanSchedule(lines, now);
    edit := AppendDay(scan, startEpoch);
  }

  /** The tail of the handler: `final_content.append(...)` when a day was dropped, then the edit. */
  method AppendDay(scan: Option<Scan>, startEpoch: int) returns (edit: ScheduleEdit)
    ensures edit == Finish(scan, startEpoch)
  {
    if scan.None? {
      return Raises;
    }
    var finalContent := scan.value.kept;
    if scan.value.addDay {
      var last := ParseInt(scan.value.lastDayIndex);
      if last.None? {
        return Raises;
      }
      finalContent := finalContent + [DayStr(last.value + 1, startEpoch) + "Open"];
    }
    edit := Edited(finalContent);
  }

  /** The `updateschedule` handler. */
  method UpdateSchedule(canManageGuild: bool, channelEmpty: bool, lines: seq<string>, now: int, startEpoch: int)
    returns (edit: ScheduleEdit)
    ensures edit == UpdateScheduleSpec(canManageGuild, channelEmpty, lines, now, startEpoch)
  {
    if !canManageGuild {
      return NoPermission;
    }
    if channelEmpty {
      var seed := Seed(startEpoch);
      return Edited(seed);
    }
    edit := Extend(lines, now, startEpoch);
  }

  // --- What the update does, stated without the loop --------------------------

  /** Index of the first day line, `|lines|` when there is none. */
  function FirstDayIndex(lines: seq<string>): (f: nat)
    ensures f <= |lines|
    ensures forall k :: 0 <= k < f ==> !IsAnyDayLine(lines[k])
    ensures f < |lines| ==> IsAnyDayLine(lines[f])
    decreases |lines|
  {
    if |lines| == 0 then 0
    else if IsAnyDayLine(lines[0]) then 0
    else 1 + FirstDayIndex(lines[1..])
  }

  lemma FirstDayIndexUnique(lines: seq<string>, f: nat)
    requires f <= |lines|
    requires forall k :: 0 <= k < f ==> !IsAnyDayLine(lines[k])
    requires f < |lines| ==> IsAnyDayLine(lines[f])
    ensures FirstDayIndex(lines) == f
  {
  }

  /** `last_day_index` as the loop leaves it: the number text of the last day line kept, "0" if none. */
  function LastIndexText(kept: seq<string>): string
    decreases |kept|
  {
    if |kept| == 0 then "0"
    else if IsAnyDayLine(kept[|kept| - 1]) then DayIndexText(kept[|kept| - 1]).GetOr("")
    else LastIndexText(kept[..|kept| - 1])
  }

  /** The lines without the one at index `f`. */
  function Without(lines: seq<string>, f: nat): seq<string>
    requires f < |lines|
  {
    lines[..f] + lines[f + 1..]
  }

  /** What the scan has built after reading `lines`, stated from the first day line's index. */
  ghost predicate ScanMeaning(lines: seq<string>, now: int, st: Scan) {
    var f := FirstDayIndex(lines);
    && (st.firstDay <==> f == |lines|)
    && (st.addDay <==> f < |lines| && Stale(lines[f], now))
    && st.kept == (if st.addDay then Without(lines, f) else lines)
    && st.lastDayIndex == LastIndexText(st.kept)
  }

  lemma FirstDayIndexSnoc(prefix: seq<string>, x: string)
    ensures FirstDayIndex(prefix + [x]) ==
      if FirstDayIndex(prefix) < |prefix| then FirstDayIndex(prefix)
      else if IsAnyDayLine(x) then |prefix| else |prefix| + 1
  {
    var lines := prefix + [x];
    var f' := FirstDayIndex(prefix);
    if f' < |prefix| {
      assert lines[f'] == prefix[f'];
      FirstDayIndexUnique(lines, f');
    } else {
      FirstDayIndexUnique(lines, if IsAnyDayLine(x) then |prefix| else |prefix| + 1);
    }
  }

  lemma LastIndexTextSnoc(kept: seq<string>, x: string)
    ensures LastIndexText(kept + [x]) == if IsAnyDayLine(x) then DayIndexText(x).GetOr("") else LastIndexText(kept)
  {
    assert (kept + [x])[..|kept|] == kept;
  }

  lemma WithoutSnoc(prefix: seq<string>, x: string, f: nat)
    requires f < |prefix|
    ensures Without(prefix + [x], f) == Without(prefix, f) + [x]
  {
  }

  lemma {:induction false} ScanLinesMeaning(lines: seq<string>, now: int)
    requires ScanLines(lines, now).Some?
    ensures ScanMeaning(lines, now, ScanLines(lines, now).value)
    decreases |lines|
  {
    if |lines| > 0 {
      var n := |lines|;
      var prefix, x := lines[..n - 1], lines[n - 1];
      assert prefix + [x] == lines;
      ScanLinesMeaning(prefix, now);
      var prev := ScanLines(prefix, now).value;
      var st := ScanLines(lines, now).value;
      assert Step(prev, x, now) == Some(st);
      FirstDayIndexSnoc(prefix, x);
      var f := FirstDayIndex(lines);
      if IsAnyDayLine(x) && prev.firstDay && Stale(x, now) {
        assert f == n - 1;
        assert Without(lines, f) == prefix;
      } else {
        assert st.kept == prev.kept + [x];
        LastIndexTextSnoc(prev.kept, x);
        if st.addDay {
          WithoutSnoc(prefix, x, f);
        }
      }
    }
  }

  /** A schedule whose first day is not yet stale is written back unchanged. */
  lemma ExtendKeepsFreshSchedule(lines: seq<string>, now: int, startEpoch: int)
    requires ExtendSchedule(lines, now, startEpoch).Edited?
    requires FirstDayIndex(lines) == |lines| || !Stale(lines[FirstDayIndex(lines)], now)
    ensures ExtendSchedule(lines, now, startEpoch) == Edited(lines)
  {
    ScanLinesMeaning(lines, now);
  }

  /**
   * A stale first day is dropped and exactly one open day is appended, numbered
   * one past the last day left in the schedule; the line count is unchanged.
   */
  lemma ExtendRollsStaleDay(lines: seq<string>, now: int, startEpoch: int)
    requires ExtendSchedule(lines, now, startEpoch).Edited?
    requires FirstDayIndex(lines) < |lines| && Stale(lines[FirstDayIndex(lines)], now)
    ensures var rest := Without(lines, FirstDayIndex(lines));
            ParseInt(LastIndexText(rest)).Some? &&
            ExtendSchedule(lines, now, startEpoch).lines
              == rest + [DayStr(ParseInt(LastIndexText(rest)).value + 1, startEpoch) + "Open"]
    ensures |ExtendSchedule(lines, now, startEpoch).lines| == |lines|
  {
    var rest := Without(lines, FirstDayIndex(lines));
    StaleScan(lines, now);
    assert |rest| == |lines| - 1;
  }

  /** The scan of a schedule whose first day is stale: that day dropped, the rest kept. */
  lemma StaleScan(lines: seq<string>, now: int)
    requires ScanLines(lines, now).Some?
    requires FirstDayIndex(lines) < |lines| && Stale(lines[FirstDayIndex(lines)], now)
    ensures var rest := Without(lines, FirstDayIndex(lines));
      ScanLines(lines, now).value == Scan(rest, false, LastIndexText(rest), true)
  {
    ScanLinesMeaning(lines, now);
  }

  /** Every line of a freshly seeded schedule reads back as its own day number and date. */
  lemma SeedScheduleReadsBack(startEpoch: int, d: nat)
    requires 1 <= d <= ScheduleDays
    ensures TimestampOf(SeedSchedule(startEpoch)[d]) == Some(DayEpoch(d, startEpoch))
    ensures DayIndexText(SeedSchedule(startEpoch)[d]) == Some(IntToString(d))
  {
    DayLineTimestamp(d, startEpoch, "Open");
    DayLineIndex(d, startEpoch, "Open");
  }
}
