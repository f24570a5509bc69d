/** The grade-report classifier of the course service: every row of the grade report names a
    course and its attempts `(semester)[grade]`; the last attempt decides whether the course is
    completed, being taken this semester, or pre-registered for another semester. */
module GradeHistory {
  import opened Wrappers
  import opened Text
  import opened Records

  /** One `(semester)[grade]` attempt, the two groups as the pattern captured them (untrimmed). */
  datatype Attempt = Attempt(semester: string, grade: string)

  /** The grades that count as a final result. */
  const ValidGrades: seq<string> := ["A+", "A", "B+", "B", "C+", "C", "D+", "D", "F"]

  predicate IsValidGrade(g: string) {
    g in ValidGrades
  }

  /** The text of `s` before its first `c`, when `s` holds a `c`. */
  function UpTo(s: string, c: char): (r: Option<string>)
    ensures r.Some? ==> |r.value| < |s| && s[..|r.value|] == r.value && s[|r.value|] == c && c !in r.value
    ensures r.None? ==> c !in s
  {
    var i := IndexOf(s, c);
    if i == |s| then None else Some(s[..i])
  }

  /** The pattern `\(([^)]+)\)\s*\[([^\]]+)\]` tried at the start of `s`: the attempt and the
      number of characters the match covers. */
  function MatchAttempt(s: string): (r: Option<(Attempt, nat)>)
    ensures r.Some? ==> 0 < r.value.1 <= |s|
    ensures r.Some? ==> r.value.0.semester != [] && ')' !in r.value.0.semester
    ensures r.Some? ==> r.value.0.grade != [] && ']' !in r.value.0.grade
  {
    if s == [] || s[0] != '(' then None
    else
      var semester := UpTo(s[1..], ')');
      if semester.None? || semester.value == [] then None
      else
        var after := TrimStart(s[|semester.value| + 2..]);
        if after == [] || after[0] != '[' then None
        else
          var grade := UpTo(after[1..], ']');
          if grade.None? || grade.value == [] then None
          else Some((Attempt(semester.value, grade.value), |s| - |after| + |grade.value| + 2))
  }

  /** `Regex.Matches` / `re.findall` of the attempt pattern: the non-overlapping matches from
      left to right, a failed position being skipped by one character. */
  function ScanAttempts(s: string): seq<Attempt>
    decreases |s|
  {
    if s == [] then []
    else
      match MatchAttempt(s)
      case Some((a, n)) => [a] + ScanAttempts(s[n..])
      case None => ScanAttempts(s[1..])
  }

  /** An attempt that the pattern can capture exactly: both groups non-empty and free of their closing bracket. */
  predicate WellFormed(a: Attempt) {
    a.semester != [] && ')' !in a.semester && a.grade != [] && ']' !in a.grade
  }

  function Show(a: Attempt): string {
    "(" + a.semester + ")[" + a.grade + "]"
  }

  /** The attempts as the grade report prints them, separated by single spaces. */
  function Render(atts: seq<Attempt>): string {
    if atts == [] then "" else if |atts| == 1 then Show(atts[0]) else Show(atts[0]) + " " + Render(atts[1..])
  }

  lemma UpToAfter(x: string, c: char, y: string)
    requires c !in x
    ensures UpTo(x + [c] + y, c) == Some(x)
  {
    var s := x + [c] + y;
    assert s[|x|] == c;
    assert forall j :: 0 <= j < |x| ==> s[j] == x[j];
    assert s[..|x|] == x;
  }

  /** The pattern matches at the start of `s` when its pieces are found one after another. */
  lemma MatchParts(s: string, semester: string, after: string, grade: string)
    requires |s| > 0 && s[0] == '(' && UpTo(s[1..], ')') == Some(semester) && semester != []
    requires TrimStart(s[|semester| + 2..]) == after && |after| > 0 && after[0] == '['
    requires UpTo(after[1..], ']') == Some(grade) && grade != []
    ensures MatchAttempt(s) == Some((Attempt(semester, grade), |s| - |after| + |grade| + 2))
  {
  }

  /** The semester group of a printed attempt and what follows its ')'. */
  lemma ShowSemester(a: Attempt, rest: string)
    requires WellFormed(a)
    ensures var s := Show(a) + rest;
      |s| > 0 && s[0] == '(' && UpTo(s[1..], ')') == Some(a.semester) &&
      s[|a.semester| + 2..] == "[" + a.grade + "]" + rest
  {
    var s := Show(a) + rest;
    var tail := "[" + a.grade + "]" + rest;
    assert s == "(" + a.semester + ")" + tail;
    assert s[1..] == a.semester + [')'] + tail;
    UpToAfter(a.semester, ')', tail);
  }

  /** The grade group of a printed attempt. */
  lemma ShowGrade(grade: string, rest: string)
    requires grade != [] && ']' !in grade
    ensures var tail := "[" + grade + "]" + rest;
      TrimStart(tail) == tail && UpTo(tail[1..], ']') == Some(grade)
  {
    var tail := "[" + grade + "]" + rest;
    assert tail[1..] == grade + [']'] + rest;
    UpToAfter(grade, ']', rest);
  }

  /** A printed attempt is matched in full, whatever follows it. */
  lemma MatchShow(a: Attempt, rest: string)
    requires WellFormed(a)
    ensures MatchAttempt(Show(a) + rest) == Some((a, |Show(a)|))
  {
    var tail := "[" + a.grade + "]" + rest;
    ShowSemester(a, rest);
    ShowGrade(a.grade, rest);
    MatchParts(Show(a) + rest, a.semester, tail, a.grade);
  }

  /** Scanning skips a leading space. */
  lemma ScanSkipsSpace(rest: string)
    ensures ScanAttempts(" " + rest) == ScanAttempts(rest)
  {
    assert (" " + rest)[1..] == rest;
  }

  /** Round trip: scanning the printed attempts gives the same attempts back, in order. */
  lemma {:induction false} ScanRender(atts: seq<Attempt>)
    requires forall i :: 0 <= i < |atts| ==> WellFormed(atts[i])
    ensures ScanAttempts(Render(atts)) == atts
    decreases |atts|
  {
    if atts == [] {
    } else if |atts| == 1 {
      MatchShow(atts[0], "");
      assert Show(atts[0]) + "" == Show(atts[0]);
      assert Render(atts)[|Show(atts[0])|..] == [];
    } else {
      var rest := " " + Render(atts[1..]);
      assert Render(atts) == Show(atts[0]) + rest;
      MatchShow(atts[0], rest);
      assert Render(atts)[|Show(atts[0])|..] == rest;
      ScanSkipsSpace(Render(atts[1..]));
      ScanRender(atts[1..]);
    }
  }

  /** The attempts with both groups trimmed, as the classifier reads them. */
  function Trimmed(a: Attempt): Attempt {
    Attempt(Trim(a.semester), Trim(a.grade))
  }

  /** Every attempt with both groups trimmed. */
  function TrimAll(atts: seq<Attempt>): (r: seq<Attempt>)
    ensures |r| == |atts|
  {
    seq(|atts|, i requires 0 <= i < |atts| => Trimmed(atts[i]))
  }

  /** The attempt's grade is one of the valid grades. */
  predicate Graded(a: Attempt) {
    IsValidGrade(a.grade)
  }

  /** The nearest attempt below index `n`, counting down, with a valid grade. */
  function LatestValidBelow(atts: seq<Attempt>, n: nat): (r: Option<nat>)
    requires n <= |atts|
    ensures r.Some? ==> r.value < n && Graded(atts[r.value])
    ensures r.Some? ==> forall j :: r.value < j < n ==> !Graded(atts[j])
    ensures r.None? ==> forall j :: 0 <= j < n ==> !Graded(atts[j])
  {
    if n == 0 then None
    else if Graded(atts[n - 1]) then Some(n - 1)
    else LatestValidBelow(atts, n - 1)
  }

  /** The nearest attempt, counting from the end, with a valid grade. */
  function LatestValid(atts: seq<Attempt>): Option<nat> {
    LatestValidBelow(atts, |atts|)
  }

  /** The three bucket dictionaries as values. */
  datatype Snapshot = Snapshot(
    completed: map<string, Completion>,
    current: map<string, Enrolment>,
    preRegistered: map<string, Enrolment>)

  const NoCourses := Snapshot(map[], map[], map[])

  /** The attempts before the last one, trimmed. */
  function Earlier(atts: seq<Attempt>): (r: seq<Attempt>)
    ensures |r| == if atts == [] then 0 else |atts| - 1
  {
    TrimAll(if atts == [] then [] else atts[..|atts| - 1])
  }

  lemma EarlierAt(atts: seq<Attempt>, i: int)
    requires 0 <= i < |atts| - 1
    ensures Earlier(atts)[i] == Attempt(Trim(atts[i].semester), Trim(atts[i].grade))
  {
    assert atts[..|atts| - 1][i] == atts[i];
  }

  /** The completed bucket after recording the nearest earlier valid attempt, if any. */
  function PriorCompletion(completed: map<string, Completion>, earlier: seq<Attempt>,
                           code: string, name: string): map<string, Completion>
  {
    match LatestValid(earlier)
    case Some(i) => completed[code := Completion(name, earlier[i].grade, earlier[i].semester, None)]
    case None => completed
  }

  /** A last attempt graded "-": in the current semester the course is being taken (and the
      nearest earlier valid attempt, if any, is its completion); otherwise it is pre-registered. */
  function Incomplete(st: Snapshot, atts: seq<Attempt>, code: string, name: string,
                      semester: string, currentSemester: string): Snapshot
  {
    if semester == currentSemester then
      Snapshot(PriorCompletion(st.completed, Earlier(atts), code, name),
               st.current[code := Enrolment(name, "-")], st.preRegistered)
    else
      st.(preRegistered := st.preRegistered[code := Enrolment(name, "-")])
  }

  /** The effect of one grade-report row (its cell texts) on the buckets. */
  function ClassifyRow(st: Snapshot, cells: seq<string>, currentSemester: string): Snapshot {
    if |cells| < 3 then st
    else
      var code := Trim(cells[0]);
      var name := Trim(cells[1]);
      var atts := ScanAttempts(Trim(cells[2]));
      if atts == [] then st
      else
        var last := Trimmed(atts[|atts| - 1]);
        if last.grade == "-" then Incomplete(st, atts, code, name, last.semester, currentSemester)
        else if IsValidGrade(last.grade) then
          st.(completed := st.completed[code := Completion(name, last.grade, last.semester, None)])
        else st
  }

  /** The buckets after the rows in order, starting from empty buckets. */
  function ClassifyAll(rows: seq<seq<string>>, currentSemester: string): Snapshot
    decreases |rows|
  {
    if rows == [] then NoCourses
    else ClassifyRow(ClassifyAll(rows[..|rows| - 1], currentSemester), rows[|rows| - 1], currentSemester)
  }

  /** The three dictionaries `completedCourses`, `currentSemesterCourses` and
      `preRegisteredCourses`, filled in place row by row. */
  class CourseBuckets {
    var completed: map<string, Completion>
    var current: map<string, Enrolment>
    var preRegistered: map<string, Enrolment>

    function State(): Snapshot
      reads this
    {
      Snapshot(completed, current, preRegistered)
    }

    constructor ()
      ensures State() == NoCourses
    {
      completed, current, preRegistered := map[], map[], map[];
    }
  }

  /** `HandleIncompleteGrade`: the last attempt's grade is "-". */
  method HandleIncompleteGrade(b: CourseBuckets, matches: seq<Attempt>, code: string, name: string,
                               semester: string, currentSemester: string)
    modifies b
    ensures b.State() == Incomplete(old(b.State()), matches, code, name, semester, currentSemester)
  {
    if semester == currentSemester {
      ghost var earlier := Earlier(matches);
      var completed := b.completed;
      // Look for the nearest earlier attempt with a valid grade.
      var i := |matches| - 2;
      ghost var found := false;
      while i >= 0
        invariant -2 <= i <= |matches| - 2 && i < |earlier|
        invariant forall j :: 0 <= j < |earlier| && i < j ==> !Graded(earlier[j])
        invariant b.State() == old(b.State()) && completed == b.completed && !found
      {
        var prevSemester := Trim(matches[i].semester);
        var prevGrade := Trim(matches[i].grade);
        EarlierAt(matches, i);
        assert earlier[i] == Attempt(prevSemester, prevGrade);
        if IsValidGrade(prevGrade) {
          LatestValidIsNearest(earlier, i);
          completed := completed[code := Completion(name, prevGrade, prevSemester, None)];
          found := true;
          break;
        }
        i := i - 1;
      }
      if !found {
        LatestValidNone(earlier);
      }
      assert completed == PriorCompletion(b.completed, earlier, code, name);
      b.completed := completed;
      b.current := b.current[code := Enrolment(name, "-")];
    } else {
      b.preRegistered := b.preRegistered[code := Enrolment(name, "-")];
    }
  }

  /** `LatestValid` picks the index that a backward scan stops at. */
  lemma LatestValidIsNearest(atts: seq<Attempt>, i: int)
    requires 0 <= i < |atts| && Graded(atts[i])
    requires forall j :: i < j < |atts| ==> !Graded(atts[j])
    ensures LatestValid(atts) == Some(i as nat)
  {
  }

  /** A backward scan that finds no valid grade leaves `LatestValid` empty. */
  lemma LatestValidNone(atts: seq<Attempt>)
    requires forall j :: 0 <= j < |atts| ==> !Graded(atts[j])
    ensures LatestValid(atts) == None
  {
  }

  /** `ProcessCourseRow`: one row of the grade report. */
  method ProcessCourseRow(b: CourseBuckets, cells: seq<string>, currentSemester: string)
    modifies b
    ensures b.State() == ClassifyRow(old(b.State()), cells, currentSemester)
  {
    if |cells| < 3 {
      return;
    }
    var courseCode := Trim(cells[0]);
    var courseName := Trim(cells[1]);
    var resultsText := Trim(cells[2]);
    var matches := ScanAttempts(resultsText);
    if |matches| > 0 {
      var lastMatch := matches[|matches| - 1];
      var semester := Trim(lastMatch.semester);
      var grade := Trim(lastMatch.grade);
      if grade == "-" {
        HandleIncompleteGrade(b, matches, courseCode, courseName, semester, currentSemester);
      } else if IsValidGrade(grade) {
        b.completed := b.completed[courseCode := Completion(courseName, grade, semester, None)];
      }
    }
  }

  /** `GetCompletedCoursesAsync` after the page is fetched: the rows the grade-report query
      selected, classified in document order into fresh buckets. */
  method GetCompletedCourses(rows: seq<seq<string>>, currentSemester: string) returns (b: CourseBuckets)
    ensures fresh(b)
    ensures b.State() == ClassifyAll(rows, currentSemester)
  {
    b := new CourseBuckets();
    var i := 0;
    while i < |rows|
      invariant 0 <= i <= |rows|
      invariant b.State() == ClassifyAll(rows[..i], currentSemester)
    {
      assert rows[..i + 1][..i] == rows[..i];
      ProcessCourseRow(b, rows[i], currentSemester);
      i := i + 1;
    }
    assert rows[..|rows|] == rows;
  }

  /** The attempts that a row's third cell yields, and the deciding last one (trimmed). */
  function RowAttempts(cells: seq<string>): seq<Attempt>
    requires |cells| >= 3
  {
    ScanAttempts(Trim(cells[2]))
  }

  /** A row changes the buckets at its own (trimmed) course code only. */
  lemma ClassifyRowLocal(st: Snapshot, cells: seq<string>, currentSemester: string, k: string)
    requires |cells| < 3 || k != Trim(cells[0])
    ensures var r := ClassifyRow(st, cells, currentSemester);
      (k in r.completed <==> k in st.completed) && (k in r.completed ==> r.completed[k] == st.completed[k]) &&
      (k in r.current <==> k in st.current) && (k in r.current ==> r.current[k] == st.current[k]) &&
      (k in r.preRegistered <==> k in st.preRegistered) && (k in r.preRegistered ==> r.preRegistered[k] == st.preRegistered[k])
  {
  }

  /** Where a row with at least one attempt puts its course, decided by the last attempt. */
  lemma ClassifyRowPlacement(st: Snapshot, cells: seq<string>, currentSemester: string)
    requires |cells| >= 3 && RowAttempts(cells) != []
    ensures var r := ClassifyRow(st, cells, currentSemester);
      var code := Trim(cells[0]);
      var name := Trim(cells[1]);
      var atts := RowAttempts(cells);
      var last := Trimmed(atts[|atts| - 1]);
      (IsValidGrade(last.grade) ==>
        r == st.(completed := st.completed[code := Completion(name, last.grade, last.semester, None)])) &&
      (last.grade == "-" && last.semester == currentSemester ==>
        r.current == st.current[code := Enrolment(name, "-")] && r.preRegistered == st.preRegistered) &&
      (last.grade == "-" && last.semester != currentSemester ==>
        r == st.(preRegistered := st.preRegistered[code := Enrolment(name, "-")])) &&
      (last.grade != "-" && !IsValidGrade(last.grade) ==> r == st)
  {
    var atts := RowAttempts(cells);
    var last := Trimmed(atts[|atts| - 1]);
    if last.grade == "-" {
      assert !IsValidGrade(last.grade);
    }
  }

  /** A row without attempts, or with fewer than three cells, changes nothing. */
  lemma ClassifyRowNoAttempts(st: Snapshot, cells: seq<string>, currentSemester: string)
    requires |cells| < 3 || RowAttempts(cells) == []
    ensures ClassifyRow(st, cells, currentSemester) == st
  {
  }

  /** With the last attempt in progress this semester, the completion recorded is the nearest
      earlier attempt with a valid grade, and the course is untouched when there is none. */
  lemma IncompleteCompletion(st: Snapshot, atts: seq<Attempt>, code: string, name: string, semester: string)
    ensures var r := Incomplete(st, atts, code, name, semester, semester);
      var earlier := Earlier(atts);
      (forall j :: 0 <= j < |earlier| ==> !Graded(earlier[j])) ==> r.completed == st.completed
    ensures var r := Incomplete(st, atts, code, name, semester, semester);
      forall i :: 0 <= i < |atts| - 1 && IsValidGrade(Trim(atts[i].grade)) &&
                  (forall j :: i < j < |atts| - 1 ==> !IsValidGrade(Trim(atts[j].grade))) ==>
        r.completed == st.completed[code := Completion(name, Trim(atts[i].grade), Trim(atts[i].semester), None)]
  {
    var earlier := Earlier(atts);
    forall i | 0 <= i < |atts| - 1 && IsValidGrade(Trim(atts[i].grade)) &&
               (forall j :: i < j < |atts| - 1 ==> !IsValidGrade(Trim(atts[j].grade)))
      ensures Incomplete(st, atts, code, name, semester, semester).completed ==
              st.completed[code := Completion(name, Trim(atts[i].grade), Trim(atts[i].semester), None)]
    {
      EarlierAt(atts, i);
      forall j | i < j < |earlier|
        ensures !Graded(earlier[j])
      {
        EarlierAt(atts, j);
      }
      LatestValidIsNearest(earlier, i);
    }
  }

  /** A course retaken this semester after a "D": a report row whose results cell reads
      `(earlier)[D] (current)[-]` records the D as completed and the course as current. */
  lemma RetakeInProgress(st: Snapshot, cells: seq<string>, earlier: string, currentSemester: string)
    requires WellFormed(Attempt(earlier, "D")) && WellFormed(Attempt(currentSemester, "-"))
    requires Trim(earlier) == earlier && Trim(currentSemester) == currentSemester
    requires |cells| == 3 && cells[2] == Render([Attempt(earlier, "D"), Attempt(currentSemester, "-")])
    ensures var r := ClassifyRow(st, cells, currentSemester);
      r.completed == st.completed[Trim(cells[0]) := Completion(Trim(cells[1]), "D", earlier, None)] &&
      r.current == st.current[Trim(cells[0]) := Enrolment(Trim(cells[1]), "-")] &&
      r.preRegistered == st.preRegistered
  {
    var atts := [Attempt(earlier, "D"), Attempt(currentSemester, "-")];
    var text := cells[2];
    assert atts[1..] == [atts[1]];
    assert Render(atts[1..]) == Show(atts[1]);
    assert text == Show(atts[0]) + " " + Show(atts[1]);
    assert text[0] == '(' && text[|text| - 1] == ']';
    TrimUnchanged(text);
    ScanRender(atts);
    assert RowAttempts(cells) == atts;
    assert Trimmed(atts[1]) == atts[1] by {
      TrimUnchanged("-");
    }
    assert ClassifyRow(st, cells, currentSemester) ==
           Incomplete(st, atts, Trim(cells[0]), Trim(cells[1]), currentSemester, currentSemester);
    var e := Earlier(atts);
    EarlierAt(atts, 0);
    assert e[0] == Attempt(earlier, "D");
    assert Graded(e[0]) by {
      assert ValidGrades[7] == "D";
    }
    LatestValidIsNearest(e, 0);
  }
}
