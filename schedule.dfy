/** The registration-page helpers of the course service: the time-of-day display rule, the
    class-time line, the course link text, the credit cell, and the weekly routine (day, then
    time range, then class slot) that they fill for one semester. */
module Schedule {
  import opened Wrappers
  import opened Text

  // ---------------------------------------------------------------- time of day

  /** The hour shown on a twelve-hour clock face. */
  function TwelveHour(hour: int): (h: int)
    ensures 0 <= hour <= 23 ==> 1 <= h <= 12 && h % 12 == hour % 12
  {
    if hour > 12 then hour - 12 else if hour == 0 then 12 else hour
  }

  function Meridiem(pm: bool): string {
    if pm then "PM" else "AM"
  }

  /** The display form `hour:minute meridiem`, minutes padded to two digits. */
  function ClockText(hour: int, minute: int, pm: bool): string {
    IntToString(hour) + ":" + PadTwo(minute) + " " + Meridiem(pm)
  }

  /** `\d{1,2}` followed by ':' at index `p`: the number of hour digits. */
  function HourAt(s: string, p: nat): (r: Option<nat>)
    ensures r.Some? ==> (r.value == 1 || r.value == 2) && p + r.value < |s| && s[p + r.value] == ':'
    ensures r.Some? ==> forall i :: p <= i < p + r.value ==> IsDigit(s[i])
  {
    if p + 1 < |s| && IsDigit(s[p]) && s[p + 1] == ':' then Some(1)
    else if p + 2 < |s| && IsDigit(s[p]) && IsDigit(s[p + 1]) && s[p + 2] == ':' then Some(2)
    else None
  }

  /** The digits, at most two, that a greedy `\d{1,2}` takes at index `q`. */
  function MinuteDigits(s: string, q: nat): (n: nat)
    ensures n <= 2 && (n > 0 ==> q + n <= |s|)
    ensures forall i :: q <= i < q + n ==> IsDigit(s[i])
  {
    if q < |s| && IsDigit(s[q]) then (if q + 1 < |s| && IsDigit(s[q + 1]) then 2 else 1) else 0
  }

  /** The length of the `\d{1,2}:\d{1,2}` match at index `p`, 0 when there is none. */
  function ClockAt(s: string, p: nat): (n: nat)
    ensures n > 0 ==> p + n <= |s|
  {
    match HourAt(s, p)
    case None => 0
    case Some(h) =>
      var m := MinuteDigits(s, p + h + 1);
      if m == 0 then 0 else h + 1 + m
  }

  predicate IsLowerMark(c: char) { c == 'a' || c == 'p' }
  predicate IsUpperMark(c: char) { c == 'A' || c == 'P' }

  /** The length of the optional `(?:\s?[ap]m|\s?[AP]M)` taken greedily at index `q`. */
  function MeridiemAt(s: string, q: nat): (n: nat)
    ensures n == 0 || q + n <= |s|
  {
    if q + 2 < |s| && IsWhite(s[q]) && IsLowerMark(s[q + 1]) && s[q + 2] == 'm' then 3
    else if q + 1 < |s| && IsLowerMark(s[q]) && s[q + 1] == 'm' then 2
    else if q + 2 < |s| && IsWhite(s[q]) && IsUpperMark(s[q + 1]) && s[q + 2] == 'M' then 3
    else if q + 1 < |s| && IsUpperMark(s[q]) && s[q + 1] == 'M' then 2
    else 0
  }

  /** The successive non-overlapping matches of the time-token pattern from index `p`. */
  function TimeTokens(s: string, p: nat): (r: seq<string>)
    ensures forall k :: 0 <= k < |r| ==> |r[k]| >= 3 && IsDigit(r[k][0])
    decreases |s| - p
  {
    if p >= |s| then []
    else
      var n := ClockAt(s, p);
      if n == 0 then TimeTokens(s, p + 1)
      else
        var k := n + MeridiemAt(s, p + n);
        [s[p..p + k]] + TimeTokens(s, p + k)
  }

  /** The value of the leftmost `\d{1,2}:\d{1,2}` match from index `p`, "" when there is none. */
  function FirstClock(s: string, p: nat): string
    decreases |s| - p
  {
    if p >= |s| then ""
    else
      var n := ClockAt(s, p);
      if n > 0 then s[p..p + n] else FirstClock(s, p + 1)
  }

  /** `FormatTime`: a token that carries am/pm keeps its hour and takes its meridiem from the
      mark; one without is read on a 24-hour clock; one that does not parse is returned as is. */
  function FormatTime(t: string): string {
    var lower := ToLower(t);
    if Contains(lower, "am") || Contains(lower, "pm") then
      var pm := Contains(lower, "pm");
      var parts := Split(FirstClock(t, 0), ':');
      if |parts| == 2 && TryParseInt32(parts[0]).Some? && TryParseInt32(parts[1]).Some? then
        ClockText(TryParseInt32(parts[0]).value, TryParseInt32(parts[1]).value, pm)
      else t
    else
      var parts := Split(t, ':');
      if |parts| == 2 && TryParseInt32(parts[0]).Some? && TryParseInt32(parts[1]).Some? then
        var hour := TryParseInt32(parts[0]).value;
        ClockText(TwelveHour(hour), TryParseInt32(parts[1]).value, hour >= 12)
      else t
  }

  predicate NoLetters(s: string) {
    forall i :: 0 <= i < |s| ==> !IsLetter(s[i])
  }

  lemma LowerNoLetters(s: string)
    requires NoLetters(s)
    ensures ToLower(s) == s
  {
  }

  /** A word does not occur in a string that lacks its first character. */
  lemma AbsentWord(s: string, w: string)
    requires |w| > 0 && forall i :: 0 <= i < |s| ==> s[i] != w[0]
    ensures !Contains(s, w)
  {
    ContainsIff(s, w);
  }

  lemma NoLettersClock(a: string, b: string)
    requires NoLetters(a) && NoLetters(b)
    ensures NoLetters(a + ":" + b)
  {
    var c := a + ":" + b;
    assert forall k :: 0 <= k < |c| ==> c[k] == (if k < |a| then a[k] else if k == |a| then ':' else b[k - |a| - 1]);
  }

  lemma IntToStringChars(i: int)
    ensures NoLetters(IntToString(i)) && ':' !in IntToString(i)
  {
    var d := NatToString(if i < 0 then -i else i);
    assert forall k :: 0 <= k < |d| ==> IsDigit(d[k]);
  }

  lemma {:induction false} FirstClockNone(s: string, p: nat)
    requires ':' !in s
    ensures FirstClock(s, p) == ""
    decreases |s| - p
  {
    if p < |s| {
      assert ClockAt(s, p) == 0;
      FirstClockNone(s, p + 1);
    }
  }

  /** Text without a colon is not a time and is returned unchanged. */
  lemma FormatTimeNoColon(t: string)
    requires ':' !in t
    ensures FormatTime(t) == t
  {
    FirstClockNone(t, 0);
    SplitSingle(t, ':');
  }

  /** A 24-hour `hour:minute` token is shown on the twelve-hour clock: PM from 12 on, the hour
      reduced by 12 above 12 and 0 shown as 12, the minutes padded. */
  lemma FormatTwentyFour(hour: int, minute: int)
    requires Int32Min <= hour <= Int32Max && Int32Min <= minute <= Int32Max
    ensures FormatTime(IntToString(hour) + ":" + IntToString(minute))
         == ClockText(TwelveHour(hour), minute, hour >= 12)
  {
    var a, b := IntToString(hour), IntToString(minute);
    var t := a + ":" + b;
    IntToStringChars(hour);
    IntToStringChars(minute);
    NoLettersClock(a, b);
    LowerNoLetters(t);
    AbsentWord(t, "am");
    AbsentWord(t, "pm");
    SplitPair(a, b, ':');
    TryParseIntToString(hour);
    TryParseIntToString(minute);
  }

  /** An am/pm mark as the token pattern admits it: either case, with or without a space. */
  function Mark(pm: bool, upper: bool, spaced: bool): string {
    (if spaced then " " else "") + (if upper then (if pm then "PM" else "AM") else (if pm then "pm" else "am"))
  }

  /** The hour and minute digits of a token, `\d{1,2}:\d{1,2}`, are its leftmost clock match
      when what follows them is not a digit. */
  lemma FirstClockAtStart(a: string, b: string, rest: string)
    requires 1 <= |a| <= 2 && 1 <= |b| <= 2 && AllDigits(a) && AllDigits(b)
    requires rest == [] || !IsDigit(rest[0])
    ensures FirstClock(a + ":" + b + rest, 0) == a + ":" + b
  {
    var c := a + ":" + b;
    var t := c + rest;
    var n, q := |a|, |a| + 1;
    assert t[..|c|] == c;
    assert t[n] == ':' && IsDigit(t[0]) && IsDigit(t[q]) by {
      assert t[0] == a[0] && t[q] == b[0];
    }
    if n == 2 {
      assert t[1] == a[1];
    }
    assert HourAt(t, 0) == Some(n);
    if |b| == 2 {
      assert t[q + 1] == b[1];
    } else if q + 1 < |t| {
      assert t[q + 1] == rest[0];
    }
    assert MinuteDigits(t, q) == |b|;
    assert ClockAt(t, 0) == |c|;
  }

  /** Lower-casing a letter-free clock followed by a mark lower-cases only the mark. */
  lemma LowerWithMark(c: string, pm: bool, upper: bool, spaced: bool)
    requires NoLetters(c)
    ensures ToLower(c + Mark(pm, upper, spaced)) == c + Mark(pm, false, spaced)
  {
    var t := c + Mark(pm, upper, spaced);
    var lower := ToLower(t);
    assert forall k :: 0 <= k < |c| ==> lower[k] == c[k];
    assert forall k :: |c| <= k < |t| ==> lower[k] == Mark(pm, false, spaced)[k - |c|];
  }

  /** A lower-case mark is an optional space and its two letters. */
  lemma MarkShape(pm: bool, spaced: bool)
    ensures var m, sp := Mark(pm, false, spaced), if spaced then 1 else 0;
      |m| == sp + 2 && (spaced ==> m[0] == ' ') && m[sp] == (if pm then 'p' else 'a') && m[sp + 1] == 'm'
  {
  }

  /** In a letter-free clock followed by a lower-case mark, "pm" occurs exactly for a PM mark
      and "am" for an AM mark. */
  lemma MarkFound(c: string, pm: bool, spaced: bool)
    requires NoLetters(c)
    ensures Contains(c + Mark(pm, false, spaced), "pm") == pm
    ensures Contains(c + Mark(pm, false, spaced), "am") == !pm
  {
    var m := Mark(pm, false, spaced);
    var lower := c + m;
    var sp := if spaced then 1 else 0;
    var present, absent := if pm then "pm" else "am", if pm then "am" else "pm";
    MarkShape(pm, spaced);
    assert lower[|c| + sp..|c| + sp + 2] == present by {
      assert lower[|c| + sp] == m[sp] && lower[|c| + sp + 1] == m[sp + 1];
    }
    assert OccursAt(lower, present, |c| + sp);
    ContainsIff(lower, present);
    assert forall k :: 0 <= k < |lower| ==> lower[k] != absent[0] by {
      forall k | 0 <= k < |lower|
        ensures lower[k] != absent[0]
      {
        if k < |c| {
          assert lower[k] == c[k] && !IsLetter(c[k]);
        } else {
          assert lower[k] == m[k - |c|];
        }
      }
    }
    AbsentWord(lower, absent);
  }

  lemma ShortDigits(n: nat)
    requires n < 100
    ensures 1 <= |NatToString(n)| <= 2
  {
    if n >= 10 {
      assert NatToString(n) == NatToString(n / 10) + [DigitChar(n % 10)];
    }
  }

  /** A token that already carries a mark keeps its hour as written and its meridiem from the
      mark, whatever the hour; only the minutes are padded. */
  lemma FormatWithMark(hour: nat, minute: nat, pm: bool, upper: bool, spaced: bool)
    requires hour < 100 && minute < 100
    ensures FormatTime(NatToString(hour) + ":" + NatToString(minute) + Mark(pm, upper, spaced))
         == ClockText(hour, minute, pm)
  {
    var a, b := NatToString(hour), NatToString(minute);
    var c := a + ":" + b;
    var t := c + Mark(pm, upper, spaced);
    assert t == a + ":" + b + Mark(pm, upper, spaced);
    IntToStringChars(hour);
    IntToStringChars(minute);
    NoLettersClock(a, b);
    LowerWithMark(c, pm, upper, spaced);
    MarkFound(c, pm, spaced);
    assert FirstClock(t, 0) == c by {
      ShortDigits(hour);
      ShortDigits(minute);
      FirstClockAtStart(a, b, Mark(pm, upper, spaced));
    }
    SplitPair(a, b, ':');
    assert TryParseInt32(a) == Some(hour) && TryParseInt32(b) == Some(minute) by {
      TryParseIntToString(hour);
      TryParseIntToString(minute);
    }
  }

  // ---------------------------------------------------------------- class time line

  /** One class meeting: its type (the parenthesised text), time range, full day name and room. */
  datatype ClassTime = ClassTime(kind: string, time: string, day: string, room: string)

  const DayAbbreviations: seq<string> := ["Sun", "Mon", "Tue", "Wed", "Thu", "Fri", "Sat"]
  const DayNames: seq<string> := ["Sunday", "Monday", "Tuesday", "Wednesday", "Thursday", "Friday", "Saturday"]

  /** The index of the first ')' or newline at or after `q`, or `|s|`. */
  function CloseOrNewline(s: string, q: nat): (j: nat)
    requires q <= |s|
    ensures q <= j <= |s|
    ensures j < |s| ==> s[j] == ')' || s[j] == '\n'
    ensures forall i :: q <= i < j ==> s[i] != ')' && s[i] != '\n'
    decreases |s| - q
  {
    if q == |s| || s[q] == ')' || s[q] == '\n' then q else CloseOrNewline(s, q + 1)
  }

  /** A '(' at `p` that `\((.*?)\)` can close: a ')' follows it before any newline. */
  predicate ClosesAt(s: string, p: nat) {
    p < |s| && s[p] == '(' && CloseOrNewline(s, p + 1) < |s| && s[CloseOrNewline(s, p + 1)] == ')'
  }

  /** `\((.*?)\)` from index `p`: the text between the leftmost '(' that can be closed on its
      line and the first ')' after it. */
  function ParenGroup(s: string, p: nat): (r: Option<string>)
    ensures r.Some? ==> ')' !in r.value && '\n' !in r.value
    ensures r.Some? <==> exists i :: p <= i && ClosesAt(s, i)
    decreases |s| - p
  {
    if p >= |s| then None
    else if ClosesAt(s, p) then Some(s[p + 1..CloseOrNewline(s, p + 1)])
    else ParenGroup(s, p + 1)
  }

  /** The entry of the seven-day table, from index `k` on, whose abbreviation occurs at `p`. */
  function DayFrom(s: string, p: nat, k: nat): (r: Option<nat>)
    requires k <= 7
    ensures r.Some? ==> k <= r.value < 7 && OccursAt(s, DayAbbreviations[r.value], p)
    ensures r.None? ==> forall j :: k <= j < 7 ==> !OccursAt(s, DayAbbreviations[j], p)
    decreases 7 - k
  {
    if k == 7 then None
    else if OccursAt(s, DayAbbreviations[k], p) then Some(k)
    else DayFrom(s, p, k + 1)
  }

  /** `(Sun|Mon|Tue|Wed|Thu|Fri|Sat)` from index `p`, mapped to the full day name. */
  function FirstDay(s: string, p: nat): (r: Option<string>)
    ensures r.Some? ==> r.value in DayNames
    ensures r.Some? <==> exists i, k :: p <= i && 0 <= k < 7 && OccursAt(s, DayAbbreviations[k], i)
    decreases |s| - p
  {
    if p >= |s| then None
    else match DayFrom(s, p, 0)
      case Some(k) => Some(DayNames[k])
      case None => FirstDay(s, p + 1)
  }

  /** `Room: (.*)` from index `p`: the rest of the line after the leftmost "Room: ". */
  function RoomFrom(s: string, p: nat): (r: Option<string>)
    ensures r.Some? ==> '\n' !in r.value
    ensures r.Some? <==> exists i :: p <= i && OccursAt(s, "Room: ", i)
    decreases |s| - p
  {
    if p + 6 > |s| then None
    else if OccursAt(s, "Room: ", p) then
      var rest := s[p + 6..];
      Some(rest[..IndexOf(rest, '\n')])
    else RoomFrom(s, p + 1)
  }

  /** `ParseTime`: all four parts are required; the time range joins the first two time
      tokens, each in display form. */
  function ParseTime(s: string): (r: Option<ClassTime>)
    ensures r.Some? <==> |TimeTokens(s, 0)| >= 2 && ParenGroup(s, 0).Some? && FirstDay(s, 0).Some? && RoomFrom(s, 0).Some?
    ensures r.Some? ==> r.value.day in DayNames && ')' !in r.value.kind && '\n' !in r.value.kind && '\n' !in r.value.room
    ensures r.Some? ==> r.value.time == FormatTime(TimeTokens(s, 0)[0]) + " - " + FormatTime(TimeTokens(s, 0)[1])
  {
    var tokens := TimeTokens(s, 0);
    var kind, day, room := ParenGroup(s, 0), FirstDay(s, 0), RoomFrom(s, 0);
    if |tokens| < 2 || kind.None? || day.None? || room.None? then None
    else Some(ClassTime(kind.value, FormatTime(tokens[0]) + " - " + FormatTime(tokens[1]), day.value, room.value))
  }

  // ---------------------------------------------------------------- course link text

  /** The class id, title-cased course name and section read from a course link. */
  datatype CourseDetails = CourseDetails(classId: string, name: string, section: string)

  /** What an unrecognised link yields: three empty strings. */
  const NoDetails := CourseDetails("", "", "")

  predicate IsSectionChar(c: char) { IsUpper(c) || IsDigit(c) }

  function LeadingDigits(t: string): (n: nat)
    ensures n <= |t| && (n < |t| ==> !IsDigit(t[n]))
    ensures forall i :: 0 <= i < n ==> IsDigit(t[i])
  {
    if t != [] && IsDigit(t[0]) then 1 + LeadingDigits(t[1..]) else 0
  }

  function LeadingWhite(t: string): (n: nat)
    ensures n <= |t| && (n < |t| ==> !IsWhite(t[n]))
    ensures forall i :: 0 <= i < n ==> IsWhite(t[i])
  {
    if t != [] && IsWhite(t[0]) then 1 + LeadingWhite(t[1..]) else 0
  }

  function LeadingSection(t: string): (n: nat)
    ensures n <= |t| && (n < |t| ==> !IsSectionChar(t[n]))
    ensures forall i :: 0 <= i < n ==> IsSectionChar(t[i])
  {
    if t != [] && IsSectionChar(t[0]) then 1 + LeadingSection(t[1..]) else 0
  }

  /** `\s+\[([A-Z0-9]+)\]` at the start of `t`: the bracketed section and the match length. */
  function Bracket(t: string): (r: Option<(string, nat)>)
    ensures r.Some? ==> r.value.1 <= |t| && |r.value.0| > 0
    ensures r.Some? ==> forall i :: 0 <= i < |r.value.0| ==> IsSectionChar(r.value.0[i])
  {
    var w := LeadingWhite(t);
    if w == 0 || w == |t| || t[w] != '[' then None
    else
      var c := LeadingSection(t[w + 1..]);
      if c == 0 || w + 1 + c == |t| || t[w + 1 + c] != ']' then None
      else Some((t[w + 1..w + 1 + c], w + c + 2))
  }

  /** `$` without the multiline option: the end of the text, or just before a final newline. */
  predicate AtEnd(t: string) { t == [] || t == "\n" }

  /** `\s+\[(first)\](?:\s+\[(second)\])?$` at the start of `t`, the optional group tried first. */
  function Sections(t: string): (r: Option<(string, Option<string>)>)
    ensures r.Some? ==> |r.value.0| > 0 && (r.value.1.Some? ==> |r.value.1.value| > 0)
  {
    match Bracket(t)
    case None => None
    case Some((first, n)) =>
      var u := t[n..];
      match Bracket(u)
      case Some((second, m)) =>
        if AtEnd(u[m..]) then Some((first, Some(second)))
        else if AtEnd(u) then Some((first, None)) else None
      case None =>
        if AtEnd(u) then Some((first, None)) else None
  }

  /** No newline among the first `n` characters of `t`. */
  predicate OneLine(t: string, n: int) {
    forall i :: 0 <= i < n && i < |t| ==> t[i] != '\n'
  }

  /** `follows` holds of no cut of `t` from `lo` up to, not including, `hi`. */
  predicate NoneFollowsBetween(t: string, follows: string -> bool, lo: int, hi: int)
    requires 0 <= lo && hi <= |t|
  {
    forall k :: lo <= k < hi ==> !follows(t[k..])
  }

  /** A lazy `(.+?)` followed by the rest of a pattern, which `follows` tells apart: the length
      of the shortest name of at least `len` characters, never across a newline, after which the
      rest matches. */
  function LazyName(t: string, follows: string -> bool, len: nat): (r: Option<nat>)
    requires 1 <= len
    ensures r.Some? ==> len <= r.value <= |t| && follows(t[r.value..])
    decreases |t| + 1 - len
  {
    if len > |t| || t[len - 1] == '\n' then None
    else if follows(t[len..]) then Some(len)
    else LazyName(t, follows, len + 1)
  }

  /** The name the lazy match settles on stays on one line. */
  lemma {:induction false} LazyNameOneLine(t: string, follows: string -> bool, len: nat)
    requires 1 <= len && OneLine(t, len - 1)
    ensures var r := LazyName(t, follows, len);
      r.Some? ==> OneLine(t, r.value)
    decreases |t| + 1 - len
  {
    if !(len > |t| || t[len - 1] == '\n') && !follows(t[len..]) {
      assert OneLine(t, len);
      LazyNameOneLine(t, follows, len + 1);
    }
  }

  /** The name the lazy match settles on is the shortest: the rest of the pattern matches
      after no shorter name of at least `len` characters. */
  lemma {:induction false} LazyNameShortest(t: string, follows: string -> bool, len: nat)
    requires 1 <= len
    ensures var r := LazyName(t, follows, len);
      r.Some? ==> NoneFollowsBetween(t, follows, len, r.value)
    decreases |t| + 1 - len
  {
    if !(len > |t| || t[len - 1] == '\n') && !follows(t[len..]) {
      LazyNameShortest(t, follows, len + 1);
    }
  }

  /** The rest of the course-link pattern: the sections and the end of the text. */
  predicate SectionsFollow(t: string) {
    Sections(t).Some?
  }

  /** A match of the course-link pattern `^(\d+)-(.+?)\s+\[S\](?:\s+\[S\])?$`: the class id,
      the name as captured, and the second bracket when there is one, otherwise the first. */
  function MatchCourseLink(course: string): (r: Option<CourseDetails>)
    ensures r.Some? ==> r.value.classId != [] && AllDigits(r.value.classId) && StartsWith(course, r.value.classId)
    ensures r.Some? ==> |r.value.section| > 0
    ensures (course == [] || !IsDigit(course[0])) ==> r.None?
  {
    var d := LeadingDigits(course);
    if d == 0 || d == |course| || course[d] != '-' then None
    else
      var rest := course[d + 1..];
      match LazyName(rest, SectionsFollow, 1)
      case None => None
      case Some(n) =>
        var sections := Sections(rest[n..]).value;
        Some(CourseDetails(course[..d], rest[..n], sections.1.GetOr(sections.0)))
  }

  /** `ParseCourseDetails`: the match of the course-link pattern with its name lower-cased and
      then title-cased, or three empty strings when the text does not match. */
  function ParseCourseDetails(course: string): (r: CourseDetails)
    ensures r.classId == [] ==> r == NoDetails
    ensures r.classId != [] ==> AllDigits(r.classId) && StartsWith(course, r.classId) && |r.section| > 0
    ensures (course == [] || !IsDigit(course[0])) ==> r == NoDetails
  {
    match MatchCourseLink(course)
    case None => NoDetails
    case Some(m) => m.(name := TitleCase(ToLower(m.name)))
  }

  predicate SectionCode(s: string) {
    |s| > 0 && forall i :: 0 <= i < |s| ==> IsSectionChar(s[i])
  }

  /** A course name as a link writes it: on one line, without brackets, not ending in white space. */
  predicate PlainName(name: string) {
    |name| > 0 && !IsWhite(name[|name| - 1]) && forall i :: 0 <= i < |name| ==> name[i] != '[' && name[i] != '\n'
  }

  /** The link text `classId-name [first]`, or `classId-name [first] [second]`. */
  function CourseLink(classId: string, name: string, first: string, second: Option<string>): string {
    classId + "-" + name + SectionText(first, second)
  }

  function SectionText(first: string, second: Option<string>): string {
    " [" + first + "]" + (if second.Some? then " [" + second.value + "]" else "")
  }

  lemma {:induction false} LeadingDigitsOf(a: string, b: string)
    requires AllDigits(a) && (b == [] || !IsDigit(b[0]))
    ensures LeadingDigits(a + b) == |a|
    decreases |a|
  {
    if a != [] {
      assert (a + b)[1..] == a[1..] + b;
      LeadingDigitsOf(a[1..], b);
    }
  }

  lemma {:induction false} LeadingSectionOf(a: string, b: string)
    requires forall i :: 0 <= i < |a| ==> IsSectionChar(a[i])
    requires b == [] || !IsSectionChar(b[0])
    ensures LeadingSection(a + b) == |a|
    decreases |a|
  {
    if a != [] {
      assert (a + b)[1..] == a[1..] + b;
      LeadingSectionOf(a[1..], b);
    }
  }

  lemma BracketOf(code: string, rest: string)
    requires SectionCode(code)
    ensures Bracket(" [" + code + "]" + rest) == Some((code, |code| + 3))
  {
    var t := " [" + code + "]" + rest;
    assert LeadingWhite(t[1..]) == 0;
    assert t[2..] == code + ("]" + rest);
    LeadingSectionOf(code, "]" + rest);
    assert t[2..2 + |code|] == code;
  }

  /** A name that cannot stop early: no bracket can open before its last, non-white character. */
  lemma BracketRejects(x: string, tail: string)
    requires |x| > 0 && !IsWhite(x[|x| - 1]) && forall i :: 0 <= i < |x| ==> x[i] != '['
    ensures Bracket(x + tail) == None
  {
    assert (x + tail)[|x| - 1] == x[|x| - 1];
  }

  lemma SectionsOne(first: string)
    requires SectionCode(first)
    ensures Sections(" [" + first + "]" + "") == Some((first, None))
  {
    var t := " [" + first + "]" + "";
    BracketOf(first, "");
    assert t[|first| + 3..] == "";
    assert Bracket("") == None;
  }

  lemma SectionsFromBrackets(t: string, first: string, n: nat, second: string, m: nat)
    requires Bracket(t) == Some((first, n)) && Bracket(t[n..]) == Some((second, m)) && AtEnd(t[n..][m..])
    ensures Sections(t) == Some((first, Some(second)))
  {
  }

  lemma SectionsTwo(first: string, second: string)
    requires SectionCode(first) && SectionCode(second)
    ensures Sections(" [" + first + "]" + (" [" + second + "]")) == Some((first, Some(second)))
  {
    var tail := " [" + second + "]";
    var t := " [" + first + "]" + tail;
    var n, m := |first| + 3, |second| + 3;
    BracketOf(first, tail);
    assert t[n..] == tail;
    BracketOf(second, "");
    assert tail + "" == tail;
    assert tail[m..] == "";
    SectionsFromBrackets(t, first, n, second, m);
  }

  lemma SectionsOf(first: string, second: Option<string>)
    requires SectionCode(first) && (second.Some? ==> SectionCode(second.value))
    ensures Sections(SectionText(first, second)) == Some((first, second))
  {
    if second.Some? {
      SectionsTwo(first, second.value);
    } else {
      SectionsOne(first);
    }
  }

  lemma {:induction false} LazyNameOf(name: string, tail: string, len: nat)
    requires PlainName(name) && 1 <= len <= |name| && Sections(tail).Some?
    ensures LazyName(name + tail, SectionsFollow, len) == Some(|name|)
    decreases |name| - len
  {
    var t := name + tail;
    assert t[len - 1] == name[len - 1];
    if len < |name| {
      assert Sections(t[len..]).None? by {
        assert t[len..] == name[len..] + tail;
        BracketRejects(name[len..], tail);
      }
      LazyNameOf(name, tail, len + 1);
    } else {
      assert t[len..] == tail;
    }
  }

  /** Reading a link text gives back its class id, its name in title case, and its last section. */
  lemma ParseCourseLink(classId: string, name: string, first: string, second: Option<string>)
    requires |classId| > 0 && AllDigits(classId) && PlainName(name)
    requires SectionCode(first) && (second.Some? ==> SectionCode(second.value))
    ensures ParseCourseDetails(CourseLink(classId, name, first, second))
         == CourseDetails(classId, TitleCase(ToLower(name)), second.GetOr(first))
  {
    MatchLink(classId, name, first, second);
  }

  /** The pattern matches a link text and captures its class id, its name as written, and its
      last section. */
  lemma MatchLink(classId: string, name: string, first: string, second: Option<string>)
    requires |classId| > 0 && AllDigits(classId) && PlainName(name)
    requires SectionCode(first) && (second.Some? ==> SectionCode(second.value))
    ensures MatchCourseLink(CourseLink(classId, name, first, second))
         == Some(CourseDetails(classId, name, second.GetOr(first)))
  {
    var tail := SectionText(first, second);
    var rest := name + tail;
    var course := CourseLink(classId, name, first, second);
    assert course == classId + ("-" + rest);
    LeadingDigitsOf(classId, "-" + rest);
    assert course[..|classId|] == classId;
    assert course[|classId| + 1..] == rest;
    SectionsOf(first, second);
    LazyNameOf(name, tail, 1);
    assert rest[..|name|] == name;
    assert rest[|name|..] == tail;
  }

  // ---------------------------------------------------------------- credit cell

  /** One '-'-separated piece of the credit cell: its integer value, 0 when it does not parse. */
  function PieceCredit(piece: string): int {
    TryParseInt32(Trim(piece)).GetOr(0)
  }

  /** The values of the pieces of a credit cell, split at '-'; never empty. */
  function CreditValues(text: string): (r: seq<int>)
    ensures |r| == |Split(Trim(text), '-')| >= 1
  {
    var pieces := Split(Trim(text), '-');
    seq(|pieces|, i requires 0 <= i < |pieces| => PieceCredit(pieces[i]))
  }

  /** The credit shown in the cell next to a course: the largest piece value, and 0 when there
      is no such cell. */
  function CellCredit(cell: Option<string>): (c: int)
    ensures cell.None? ==> c == 0
    ensures cell.Some? ==> c in CreditValues(cell.value)
    ensures cell.Some? ==> forall i :: 0 <= i < |CreditValues(cell.value)| ==> CreditValues(cell.value)[i] <= c
  {
    match cell
    case None => 0
    case Some(text) => MaxOf(CreditValues(text))
  }

  lemma {:induction false} TrimKeepsOut(s: string, c: char)
    requires c !in s
    ensures c !in Trim(s)
    decreases |s|
  {
    if |s| > 0 && IsWhite(s[0]) {
      assert c !in s[1..];
      TrimKeepsOut(s[1..], c);
    } else if |s| > 0 && IsWhite(s[|s| - 1]) {
      assert c !in s[..|s| - 1];
      TrimKeepsOut(s[..|s| - 1], c);
    }
  }

  /** The pieces carry no minus sign, so no credit is negative. */
  lemma CellCreditNonNegative(cell: Option<string>)
    ensures CellCredit(cell) >= 0
  {
    if cell.Some? {
      var pieces := Split(Trim(cell.value), '-');
      forall i | 0 <= i < |pieces|
        ensures PieceCredit(pieces[i]) >= 0
      {
        TrimKeepsOut(pieces[i], '-');
        var t := Trim(Trim(pieces[i]));
        TrimKeepsOut(Trim(pieces[i]), '-');
        assert |t| > 0 ==> t[0] != '-';
      }
    }
  }

  lemma TwoPieces(text: string, x: string, y: string)
    requires Split(Trim(text), '-') == [x, y]
    ensures CellCredit(Some(text)) == if PieceCredit(x) >= PieceCredit(y) then PieceCredit(x) else PieceCredit(y)
  {
    assert CreditValues(text) == [PieceCredit(x), PieceCredit(y)];
  }

  lemma DigitsUntrimmed(x: string, y: string)
    requires |x| > 0 && |y| > 0 && AllDigits(x) && AllDigits(y)
    ensures Trim(x + "-" + y) == x + "-" + y
  {
    var text := x + "-" + y;
    assert text[0] == x[0] && text[|text| - 1] == y[|y| - 1];
    TrimUnchanged(text);
  }

  /** A range `a-b` of credits counts as the larger end. */
  lemma CellCreditRange(a: nat, b: nat)
    requires a <= Int32Max && b <= Int32Max
    ensures CellCredit(Some(NatToString(a) + "-" + NatToString(b))) == if a >= b then a else b
  {
    var x, y := NatToString(a), NatToString(b);
    var text := x + "-" + y;
    DigitsUntrimmed(x, y);
    IntToStringChars(a);
    IntToStringChars(b);
    SplitPair(x, y, '-');
    assert PieceCredit(x) == a && PieceCredit(y) == b by {
      TrimUnchanged(x);
      TrimUnchanged(y);
      TryParseIntToString(a);
      TryParseIntToString(b);
    }
    TwoPieces(text, x, y);
  }

  // ---------------------------------------------------------------- weekly routine

  /** One class slot of the routine: the course it belongs to, and what and where the meeting is. */
  datatype Slot = Slot(courseName: string, classId: string, credit: int, section: string, kind: string, room: string)

  /** The routine of one semester: day name, then time range, then slot. */
  type Routine = map<string, map<string, Slot>>

  /** A first-column cell of the registration table as the page yields it: its text, the text
      of its link if there is one, the text of the cell after it if there is one, and the texts
      of its time spans. */
  datatype CourseCell = CourseCell(text: string, link: Option<string>, creditCell: Option<string>, spans: seq<string>)

  /** `string.IsNullOrWhiteSpace`. */
  predicate IsBlank(s: string) {
    forall i :: 0 <= i < |s| ==> IsWhite(s[i])
  }

  /** Storing `slot` under `day` and `time`: the day's table is created when missing, a slot
      already there is replaced, and every other entry is kept. */
  function Insert(routine: Routine, day: string, time: string, slot: Slot): (r: Routine)
    ensures r.Keys == routine.Keys + {day}
    ensures r[day].Keys == (if day in routine then routine[day].Keys else {}) + {time}
    ensures r[day][time] == slot
    ensures forall t :: day in routine && t in routine[day] && t != time ==> r[day][t] == routine[day][t]
    ensures forall d :: d in routine && d != day ==> r[d] == routine[d]
  {
    var times := if day in routine then routine[day] else map[];
    routine[day := times[time := slot]]
  }

  /** Creating the day's table when it is missing and then storing the slot in it is `Insert`. */
  lemma InsertInTwoSteps(routine: Routine, day: string, time: string, slot: Slot)
    ensures var created := if day in routine then routine else routine[day := map[]];
            created[day := created[day][time := slot]] == Insert(routine, day, time, slot)
  {
  }

  /** The slot a parsed class line adds for a course. */
  function SlotOf(details: CourseDetails, credit: int, meeting: ClassTime): Slot {
    Slot(details.name, details.classId, credit, details.section, meeting.kind, meeting.room)
  }

  /** One span of a course: only a span mentioning "Time" whose class line parses adds a slot. */
  function SpanStep(routine: Routine, details: CourseDetails, credit: int, span: string): Routine {
    if !Contains(span, "Time") then routine
    else
      match ParseTime(span)
      case None => routine
      case Some(meeting) => Insert(routine, meeting.day, meeting.time, SlotOf(details, credit, meeting))
  }

  /** The spans of a course, in document order. */
  function SpansStep(routine: Routine, details: CourseDetails, credit: int, spans: seq<string>): Routine
    decreases |spans|
  {
    if spans == [] then routine
    else SpanStep(SpansStep(routine, details, credit, spans[..|spans| - 1]), details, credit, spans[|spans| - 1])
  }

  /** One course cell: a blank cell or one without a link adds nothing. */
  function CellStep(routine: Routine, cell: CourseCell): Routine {
    if IsBlank(cell.text) || cell.link.None? then routine
    else SpansStep(routine, ParseCourseDetails(cell.link.value), CellCredit(cell.creditCell), cell.spans)
  }

  /** The routine the course cells of a registration page build, in document order. */
  function RoutineOf(cells: seq<CourseCell>): Routine
    decreases |cells|
  {
    if cells == [] then map[] else CellStep(RoutineOf(cells[..|cells| - 1]), cells[|cells| - 1])
  }

  /** The inner loop of `GetSemesterDataAsync`: the slots of one course's time spans. */
  method AddSpanSlots(routine: Routine, parsedCourse: CourseDetails, credit: int, spans: seq<string>)
    returns (coursesObj: Routine)
    ensures coursesObj == SpansStep(routine, parsedCourse, credit, spans)
  {
    coursesObj := routine;
    for j := 0 to |spans|
      invariant coursesObj == SpansStep(routine, parsedCourse, credit, spans[..j])
    {
      ghost var before := coursesObj;
      var span := spans[j];
      if Contains(span, "Time") {
        var parsedTime := ParseTime(span);
        if parsedTime.Some? {
          var day, time := parsedTime.value.day, parsedTime.value.time;
          if day !in coursesObj {
            coursesObj := coursesObj[day := map[]];
          }
          coursesObj := coursesObj[day := coursesObj[day][time := SlotOf(parsedCourse, credit, parsedTime.value)]];
          InsertInTwoSteps(before, day, time, SlotOf(parsedCourse, credit, parsedTime.value));
        }
      }
      assert coursesObj == SpanStep(before, parsedCourse, credit, span);
      assert spans[..j + 1][..j] == spans[..j];
    }
    assert spans[..|spans|] == spans;
  }

  /** The slot-filling loop of `GetSemesterDataAsync`, over the cells the page yields. */
  method GetSemesterData(cells: seq<CourseCell>) returns (coursesObj: Routine)
    ensures coursesObj == RoutineOf(cells)
  {
    coursesObj := map[];
    for i := 0 to |cells|
      invariant coursesObj == RoutineOf(cells[..i])
    {
      assert cells[..i + 1][..i] == cells[..i];
      var course := cells[i];
      if IsBlank(course.text) || course.link.None? {
        continue;
      }
      var parsedCourse := ParseCourseDetails(course.link.value);
      var credit := CellCredit(course.creditCell);
      coursesObj := AddSpanSlots(coursesObj, parsedCourse, credit, course.spans);
    }
    assert cells[..|cells|] == cells;
  }

  /** Every day of a routine is one of the seven full day names. */
  lemma {:induction false} SpansDays(routine: Routine, details: CourseDetails, credit: int, spans: seq<string>)
    requires forall d :: d in routine ==> d in DayNames
    ensures forall d :: d in SpansStep(routine, details, credit, spans) ==> d in DayNames
    decreases |spans|
  {
    if spans != [] {
      SpansDays(routine, details, credit, spans[..|spans| - 1]);
    }
  }

  lemma {:induction false} RoutineDays(cells: seq<CourseCell>)
    ensures forall d :: d in RoutineOf(cells) ==> d in DayNames
    decreases |cells|
  {
    if cells != [] {
      var last := cells[|cells| - 1];
      RoutineDays(cells[..|cells| - 1]);
      if !IsBlank(last.text) && last.link.Some? {
        SpansDays(RoutineOf(cells[..|cells| - 1]), ParseCourseDetails(last.link.value), CellCredit(last.creditCell), last.spans);
      }
    }
  }

  // ---------------------------------------------------------------- semesters

  /** The routine of a fetched page; a page that could not be fetched, or that has no course
      table, gives an empty routine. */
  function PageRoutine(page: Option<seq<CourseCell>>): Routine {
    match page
    case None => map[]
    case Some(cells) => RoutineOf(cells)
  }

  /** The routines of the semester options, each stored under the option's name in order. */
  function SemestersOf(options: seq<(string, string)>, pages: string -> Option<seq<CourseCell>>): map<string, Routine>
    decreases |options|
  {
    if options == [] then map[]
    else
      var last := options[|options| - 1];
      SemestersOf(options[..|options| - 1], pages)[last.0 := PageRoutine(pages(last.1))]
  }

  /** `ProcessSemestersAsync`: the registration page of each (name, query) option, fetched
      through `pages`, read into that semester's routine. */
  method ProcessSemesters(options: seq<(string, string)>, pages: string -> Option<seq<CourseCell>>)
    returns (result: map<string, Routine>)
    ensures result == SemestersOf(options, pages)
  {
    result := map[];
    for i := 0 to |options|
      invariant result == SemestersOf(options[..i], pages)
    {
      assert options[..i + 1][..i] == options[..i];
      var (name, query) := options[i];
      var semesterData: Routine := map[];
      var page := pages(query);
      if page.Some? {
        semesterData := GetSemesterData(page.value);
      }
      result := result[name := semesterData];
    }
    assert options[..|options|] == options;
  }

  /** Every option yields an entry, and a name that occurs more than once keeps the routine of
      its last option. */
  lemma {:induction false} SemestersLastWins(options: seq<(string, string)>, pages: string -> Option<seq<CourseCell>>, i: nat)
    requires i < |options|
    requires forall j :: i < j < |options| ==> options[j].0 != options[i].0
    ensures options[i].0 in SemestersOf(options, pages)
    ensures SemestersOf(options, pages)[options[i].0] == PageRoutine(pages(options[i].1))
    decreases |options|
  {
    if i < |options| - 1 {
      var prefix := options[..|options| - 1];
      assert forall j :: i < j < |prefix| ==> prefix[j] == options[j];
      SemestersLastWins(prefix, pages, i);
    }
  }

  /** Nothing but the option names becomes a key. */
  lemma {:induction false} SemestersKeys(options: seq<(string, string)>, pages: string -> Option<seq<CourseCell>>)
    ensures forall name :: name in SemestersOf(options, pages) ==> exists j :: 0 <= j < |options| && options[j].0 == name
    decreases |options|
  {
    if options != [] {
      var prefix := options[..|options| - 1];
      SemestersKeys(prefix, pages);
      assert forall j :: 0 <= j < |prefix| ==> prefix[j] == options[j];
    }
  }
}
