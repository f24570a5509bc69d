/** The Python server's version of the scraper: the host of a URL, the eligibility resolver
    (`pack_data` with its skip chain), the grade-report classifier, the course-link parser, the
    checks that classify a login attempt, and the validation of push requests. Each is stated
    on its own and then related to the corresponding part of the app's model. */
module PythonReference {
  import opened Wrappers
  import opened Text
  import opened Records
  import opened GradeHistory
  import opened CourseAnalysis
  import opened Schedule
  import HttpClient
  import PortalService
  import StudentService

  // ---------------------------------------------------------------------------------------
  // get_host

  /** `get_host`: the third '/'-separated segment, which for "scheme://host/path" is the
      host; "" for no URL, the empty URL, or fewer than three segments. */
  function GetHost(url: Option<string>): (host: string)
    ensures url.None? || url == Some("") ==> host == ""
    ensures url.Some? && |Split(url.value, '/')| < 3 ==> host == ""
    ensures '/' !in host
  {
    match url
    case None => ""
    case Some(u) =>
      if u == "" then ""
      else
        var parts := Split(u, '/');
        if |parts| < 3 then "" else parts[2]
  }

  /** The host of an absolute URL is what lies between "//" and the path. */
  lemma HostOfUrl(scheme: string, host: string, path: string)
    requires '/' !in scheme && '/' !in host
    requires path == "" || path[0] == '/'
    ensures GetHost(Some(scheme + "//" + host + path)) == host
  {
    var url := scheme + "//" + host + path;
    assert url == scheme + ['/'] + ("" + ['/'] + (host + path));
    SplitAround(scheme, "" + ['/'] + (host + path), '/');
    SplitAround("", host + path, '/');
    SplitSingle(scheme, '/');
    if path == "" {
      assert host + path == host;
      SplitSingle(host, '/');
    } else {
      assert host + path == host + ['/'] + path[1..];
      SplitAround(host, path[1..], '/');
      SplitSingle(host, '/');
    }
  }

  // ---------------------------------------------------------------------------------------
  // pack_data, add_unlocked_courses, should_skip_course, skip_primary, are_prerequisites_met

  /** `skip_primary`: the placeholder code "0", a code with '#' or '*', or the internship. */
  predicate SkipPrimary(code: string, name: string) {
    code == "0" || '#' in code || '*' in code || name == "INTERNSHIP"
  }

  /** The Python exclusion is the app's plus the placeholder code "0". */
  lemma SkipPrimaryIsExcluded(code: string, name: string)
    ensures SkipPrimary(code, name) <==> code == "0" || Excluded(code, name)
  {
  }

  /** `are_prerequisites_met`: scans the list, failing at the first prerequisite that is
      neither completed nor current. */
  function ArePrerequisitesMet(prerequisites: seq<string>, completed: map<string, Completion>,
                               current: map<string, Enrolment>): bool
    decreases |prerequisites|
  {
    if prerequisites == [] then true
    else if prerequisites[0] !in completed && prerequisites[0] !in current then false
    else ArePrerequisitesMet(prerequisites[1..], completed, current)
  }

  /** The scan agrees with "every prerequisite is completed or current", both ways. */
  lemma {:induction false} ArePrerequisitesMetIff(prerequisites: seq<string>, completed: map<string, Completion>,
                                                  current: map<string, Enrolment>)
    ensures ArePrerequisitesMet(prerequisites, completed, current) <==> PrerequisitesMet(prerequisites, completed, current)
    decreases |prerequisites|
  {
    if prerequisites != [] {
      ArePrerequisitesMetIff(prerequisites[1..], completed, current);
      assert prerequisites == [prerequisites[0]] + prerequisites[1..];
      assert forall p :: p in prerequisites <==> p == prerequisites[0] || p in prerequisites[1..];
    }
  }

  /** The Python decision for one catalogue course: a "D" completion is a retake (set by the
      first loop and skipped by the second); then `should_skip_course` in its order (primary
      exclusion, completed, already unlocked, active attempt, pre-registered); then the
      prerequisite test. */
  function PyOutcome(code: string, courseMap: map<string, Course>, completed: map<string, Completion>,
                     current: map<string, Enrolment>, preRegistered: map<string, Enrolment>): Option<Unlocked>
    requires code in courseMap
  {
    var info := courseMap[code];
    if code in completed && completed[code].grade == "D" then Some(RetakeEntry(code, courseMap, completed))
    else if SkipPrimary(code, info.name) then None
    else if code in completed then None
    else if ActiveAttempt(code, info.name, current) then None
    else if code in preRegistered then Some(Offer(info))
    else if |info.prerequisites| == 0 || PrerequisitesMet(info.prerequisites, completed, current) then Some(Offer(info))
    else None
  }

  /** The unlocked courses `pack_data` computes. */
  function PyResolve(courseMap: map<string, Course>, completed: map<string, Completion>,
                     current: map<string, Enrolment>, preRegistered: map<string, Enrolment>): map<string, Unlocked>
  {
    map code | code in courseMap && PyOutcome(code, courseMap, completed, current, preRegistered).Some? ::
      PyOutcome(code, courseMap, completed, current, preRegistered).value
  }

  /** The completed records after `should_skip_course` wrote the catalogue credit into them:
      only for courses that pass the primary exclusion. */
  function PyBackfill(completed: map<string, Completion>, courseMap: map<string, Course>): map<string, Completion>
  {
    map code | code in completed ::
      if code in courseMap && !SkipPrimary(code, courseMap[code].name)
      then completed[code].(credit := Some(courseMap[code].credit)) else completed[code]
  }

  /** Course by course, the Python decision is the app's, except that the code "0" is never
      offered unless it is a retake. */
  lemma PyOutcomeIsOutcome(code: string, courseMap: map<string, Course>, completed: map<string, Completion>,
                           current: map<string, Enrolment>, preRegistered: map<string, Enrolment>)
    requires code in courseMap
    ensures PyOutcome(code, courseMap, completed, current, preRegistered) ==
      if code == "0" && !IsRetake(code, courseMap, completed) then None
      else Outcome(code, courseMap, completed, current, preRegistered)
  {
    SkipPrimaryIsExcluded(code, courseMap[code].name);
  }

  /** Without the placeholder code in the catalogue, both implementations unlock the same
      courses with the same entries. */
  lemma PyResolveIsResolve(courseMap: map<string, Course>, completed: map<string, Completion>,
                           current: map<string, Enrolment>, preRegistered: map<string, Enrolment>)
    requires "0" !in courseMap
    ensures PyResolve(courseMap, completed, current, preRegistered) == Resolve(courseMap, completed, current, preRegistered)
  {
    forall code | code in courseMap
      ensures PyOutcome(code, courseMap, completed, current, preRegistered) ==
              Outcome(code, courseMap, completed, current, preRegistered)
    {
      PyOutcomeIsOutcome(code, courseMap, completed, current, preRegistered);
    }
  }

  /** The placeholder code is unlocked only as a retake. */
  lemma ZeroOnlyRetake(courseMap: map<string, Course>, completed: map<string, Completion>,
                       current: map<string, Enrolment>, preRegistered: map<string, Enrolment>)
    ensures var r := PyResolve(courseMap, completed, current, preRegistered);
      "0" in r ==> r["0"].retake && IsRetake("0", courseMap, completed)
  {
  }

  /** The credit backfill agrees with the app's when no completed catalogue course is caught
      by the primary exclusion (the app backfills before it excludes). */
  lemma PyBackfillIsBackfill(completed: map<string, Completion>, courseMap: map<string, Course>)
    requires forall code :: code in completed && code in courseMap ==> !SkipPrimary(code, courseMap[code].name)
    ensures PyBackfill(completed, courseMap) == Backfill(completed, courseMap)
  {
  }

  /** The message of the `KeyError` a course code raises when it is missing from a dict. */
  function KeyError(code: string): string {
    "'" + code + "'"
  }

  /** A completed "D" that the catalogue lacks: the first loop of `pack_data` looks it up
      and fails. */
  predicate MissingRetake(code: string, courseMap: map<string, Course>, completed: map<string, Completion>) {
    code in completed && completed[code].grade == "D" && code !in courseMap
  }

  /** The first loop of `pack_data`: every completed "D" becomes a retake entry, looked up
      in the catalogue without a membership test. */
  method MarkRetakes(courseMap: map<string, Course>, completed: map<string, Completion>)
    returns (r: Result<map<string, Unlocked>>)
    ensures r.Err? <==> exists code :: MissingRetake(code, courseMap, completed)
    ensures r.Err? ==> exists code :: MissingRetake(code, courseMap, completed) && r.error == KeyError(code)
    ensures r.Ok? ==> r.value == RetakesAmong(courseMap, completed, completed.Keys)
  {
    var unlocked := map[];
    var todo := completed.Keys;
    while todo != {}
      invariant todo <= completed.Keys
      invariant unlocked == RetakesAmong(courseMap, completed, completed.Keys - todo)
      invariant forall code :: code in completed && code !in todo ==> !MissingRetake(code, courseMap, completed)
      decreases |todo|
    {
      var code :| code in todo;
      ghost var seen := completed.Keys - todo;
      assert completed.Keys - (todo - {code}) == seen + {code};
      if completed[code].grade == "D" {
        if code !in courseMap {
          assert MissingRetake(code, courseMap, completed);
          return Err(KeyError(code));
        }
        unlocked := unlocked[code := RetakeEntry(code, courseMap, completed)];
      }
      todo := todo - {code};
    }
    assert completed.Keys - todo == completed.Keys;
    return Ok(unlocked);
  }

  /** `should_skip_course`, in the Python order; the completed record's credit and the
      pre-registered unlock are written as it goes. */
  method ShouldSkipCourse(code: string, info: Course, completed: map<string, Completion>,
                          current: map<string, Enrolment>, preRegistered: map<string, Enrolment>,
                          unlocked: map<string, Unlocked>)
    returns (skip: bool, unlocked': map<string, Unlocked>, completed': map<string, Completion>)
    ensures skip <==> SkipPrimary(code, info.name) || code in completed || code in unlocked ||
                      ActiveAttempt(code, info.name, current) || code in preRegistered
    ensures completed' == if !SkipPrimary(code, info.name) && code in completed
                          then completed[code := completed[code].(credit := Some(info.credit))] else completed
    ensures unlocked' == if !SkipPrimary(code, info.name) && code !in completed && code !in unlocked &&
                            !ActiveAttempt(code, info.name, current) && code in preRegistered
                         then unlocked[code := Offer(info)] else unlocked
  {
    unlocked', completed' := unlocked, completed;
    if SkipPrimary(code, info.name) {
      return true, unlocked', completed';
    }
    if code in completed {
      completed' := completed[code := completed[code].(credit := Some(info.credit))];
      return true, unlocked', completed';
    }
    if code in unlocked {
      return true, unlocked', completed';
    }
    if code in current && info.name == current[code].name && current[code].grade != "W" && current[code].grade != "I" {
      return true, unlocked', completed';
    }
    if code in preRegistered {
      unlocked' := unlocked[code := Offer(info)];
      return true, unlocked', completed';
    }
    return false, unlocked', completed';
  }

  /** The unlocked map part-way through `add_unlocked_courses`. */
  function PyPartial(courseMap: map<string, Course>, completed: map<string, Completion>,
                     current: map<string, Enrolment>, preRegistered: map<string, Enrolment>,
                     done: set<string>): map<string, Unlocked>
  {
    map code | code in courseMap && (code in done || IsRetake(code, courseMap, completed)) &&
               PyOutcome(code, courseMap, completed, current, preRegistered).Some? ::
      PyOutcome(code, courseMap, completed, current, preRegistered).value
  }

  /** The completed records part-way through `add_unlocked_courses`. */
  function PyPartialBackfill(completed: map<string, Completion>, courseMap: map<string, Course>,
                             done: set<string>): map<string, Completion>
  {
    map code | code in completed ::
      if code in done && code in courseMap && !SkipPrimary(code, courseMap[code].name)
      then completed[code].(credit := Some(courseMap[code].credit)) else completed[code]
  }

  lemma PyPartialStep(courseMap: map<string, Course>, completed: map<string, Completion>,
                      current: map<string, Enrolment>, preRegistered: map<string, Enrolment>,
                      done: set<string>, code: string)
    requires code in courseMap && code !in done
    ensures var before := PyPartial(courseMap, completed, current, preRegistered, done);
      var after := PyPartial(courseMap, completed, current, preRegistered, done + {code});
      var o := PyOutcome(code, courseMap, completed, current, preRegistered);
      after == if o.Some? then before[code := o.value] else before
    ensures PyPartialBackfill(completed, courseMap, done + {code}) ==
      if code in completed && !SkipPrimary(code, courseMap[code].name) then
        PyPartialBackfill(completed, courseMap, done)[code := completed[code].(credit := Some(courseMap[code].credit))]
      else PyPartialBackfill(completed, courseMap, done)
  {
  }

  lemma PyPassBounds(courseMap: map<string, Course>, completed: map<string, Completion>,
                     current: map<string, Enrolment>, preRegistered: map<string, Enrolment>)
    requires forall code :: !MissingRetake(code, courseMap, completed)
    ensures PyPartial(courseMap, completed, current, preRegistered, {}) == RetakesAmong(courseMap, completed, completed.Keys)
    ensures PyPartialBackfill(completed, courseMap, {}) == completed
    ensures PyPartialBackfill(completed, courseMap, courseMap.Keys) == PyBackfill(completed, courseMap)
    ensures PyPartial(courseMap, completed, current, preRegistered, courseMap.Keys) ==
            PyResolve(courseMap, completed, current, preRegistered)
  {
  }

  /** The skip chain and the prerequisite test make the decision `PyOutcome` states. */
  lemma PySkipChainDecides(courseMap: map<string, Course>, completed: map<string, Completion>,
                           current: map<string, Enrolment>, preRegistered: map<string, Enrolment>,
                           code: string, before: map<string, Unlocked>, skip: bool,
                           afterSkip: map<string, Unlocked>, met: bool, after: map<string, Unlocked>)
    requires code in courseMap
    requires code in before <==> IsRetake(code, courseMap, completed)
    requires IsRetake(code, courseMap, completed) ==> before[code] == RetakeEntry(code, courseMap, completed)
    requires var info := courseMap[code];
      (skip <==> SkipPrimary(code, info.name) || code in completed || code in before ||
                 ActiveAttempt(code, info.name, current) || code in preRegistered) &&
      afterSkip == (if !SkipPrimary(code, info.name) && code !in completed && code !in before &&
                       !ActiveAttempt(code, info.name, current) && code in preRegistered
                    then before[code := Offer(info)] else before)
    requires !skip ==> (met <==> |courseMap[code].prerequisites| == 0 ||
                                 PrerequisitesMet(courseMap[code].prerequisites, completed, current))
    requires after == if !skip && met then afterSkip[code := Offer(courseMap[code])] else afterSkip
    ensures var o := PyOutcome(code, courseMap, completed, current, preRegistered);
      after == if o.Some? then before[code := o.value] else before
  {
    if IsRetake(code, courseMap, completed) {
      assert before[code := RetakeEntry(code, courseMap, completed)] == before;
    }
  }

  /** `add_unlocked_courses`: the skip chain and the prerequisite test over the catalogue,
      in whatever order the dict enumerates it. */
  method AddUnlockedCourses(courseMap: map<string, Course>, completed: map<string, Completion>,
                            current: map<string, Enrolment>, preRegistered: map<string, Enrolment>,
                            retakes: map<string, Unlocked>)
    returns (unlocked: map<string, Unlocked>, completedOut: map<string, Completion>)
    requires forall code :: !MissingRetake(code, courseMap, completed)
    requires retakes == RetakesAmong(courseMap, completed, completed.Keys)
    ensures unlocked == PyResolve(courseMap, completed, current, preRegistered)
    ensures completedOut == PyBackfill(completed, courseMap)
  {
    PyPassBounds(courseMap, completed, current, preRegistered);
    unlocked, completedOut := retakes, completed;
    var todo := courseMap.Keys;
    ghost var done: set<string> := {};
    while todo != {}
      invariant forall k :: k in courseMap <==> k in done || k in todo
      invariant done !! todo
      invariant unlocked == PyPartial(courseMap, completed, current, preRegistered, done)
      invariant completedOut == PyPartialBackfill(completed, courseMap, done)
      decreases |todo|
    {
      var code :| code in todo;
      var info := courseMap[code];
      ghost var before := unlocked;
      assert code in before <==> IsRetake(code, courseMap, completed);
      assert completedOut.Keys == completed.Keys;
      var skip;
      skip, unlocked, completedOut := ShouldSkipCourse(code, info, completedOut, current, preRegistered, unlocked);
      ghost var afterSkip := unlocked;
      var met := true;
      if !skip {
        var prerequisites := info.prerequisites;
        met := |prerequisites| == 0 || ArePrerequisitesMet(prerequisites, completedOut, current);
        ArePrerequisitesMetIff(prerequisites, completedOut, current);
        if met {
          unlocked := unlocked[code := Offer(info)];
        }
      }
      PySkipChainDecides(courseMap, completed, current, preRegistered, code, before, skip, afterSkip, met, unlocked);
      PyPartialStep(courseMap, completed, current, preRegistered, done, code);
      todo := todo - {code};
      done := done + {code};
    }
    assert done == courseMap.Keys;
  }

  /** `pack_data`'s resolver part: the retake loop, then `add_unlocked_courses`; the
      completed records come back with their credits written in. A completed "D" missing from
      the catalogue aborts with a `KeyError`. */
  method PackData(courseMap: map<string, Course>, completed: map<string, Completion>,
                  current: map<string, Enrolment>, preRegistered: map<string, Enrolment>)
    returns (r: Result<(map<string, Unlocked>, map<string, Completion>)>)
    ensures r.Err? <==> exists code :: MissingRetake(code, courseMap, completed)
    ensures r.Ok? ==> r.value.0 == PyResolve(courseMap, completed, current, preRegistered)
    ensures r.Ok? ==> r.value.1 == PyBackfill(completed, courseMap)
  {
    var retakes := MarkRetakes(courseMap, completed);
    if retakes.Err? {
      return Err(retakes.error);
    }
    var unlocked, completedOut := AddUnlockedCourses(courseMap, completed, current, preRegistered, retakes.value);
    return Ok((unlocked, completedOut));
  }

  // ---------------------------------------------------------------------------------------
  // process_row, handle_incomplete_grade

  /** `handle_incomplete_grade`'s effect: as in the app, except that the earlier attempts are
      compared with the valid grades as captured, without trimming. */
  function PyIncomplete(st: Snapshot, atts: seq<Attempt>, code: string, name: string,
                        semester: string, currentSemester: string): Snapshot
  {
    if semester == currentSemester then
      var earlier := if atts == [] then [] else atts[..|atts| - 1];
      Snapshot(PriorCompletion(st.completed, earlier, code, name),
               st.current[code := Enrolment(name, "-")], st.preRegistered)
    else
      st.(preRegistered := st.preRegistered[code := Enrolment(name, "-")])
  }

  /** `process_row` on a row's first three cell texts. */
  function PyClassifyRow(st: Snapshot, codeCell: string, nameCell: string, resultsCell: string,
                         currentSemester: string): Snapshot
  {
    var atts := ScanAttempts(Trim(resultsCell));
    if atts == [] then st
    else
      var last := Trimmed(atts[|atts| - 1]);
      if last.grade == "-" then PyIncomplete(st, atts, Trim(codeCell), Trim(nameCell), last.semester, currentSemester)
      else if IsValidGrade(last.grade) then
        st.(completed := st.completed[Trim(codeCell) := Completion(Trim(nameCell), last.grade, last.semester, None)])
      else st
  }

  /** No attempt before the last has white space around its semester or grade. */
  predicate EarlierTrimmed(atts: seq<Attempt>) {
    forall i :: 0 <= i < |atts| - 1 ==> Trimmed(atts[i]) == atts[i]
  }

  /** When the earlier attempts carry no surrounding white space, `process_row` and the app's
      row classifier agree. */
  lemma PyRowIsClassifyRow(st: Snapshot, cells: seq<string>, currentSemester: string)
    requires |cells| >= 3
    requires EarlierTrimmed(ScanAttempts(Trim(cells[2])))
    ensures PyClassifyRow(st, cells[0], cells[1], cells[2], currentSemester) == ClassifyRow(st, cells, currentSemester)
  {
    var atts := ScanAttempts(Trim(cells[2]));
    if atts != [] {
      var earlier := atts[..|atts| - 1];
      assert Earlier(atts) == earlier by {
        forall i | 0 <= i < |earlier|
          ensures Earlier(atts)[i] == earlier[i]
        {
          EarlierAt(atts, i);
          assert Trimmed(atts[i]) == atts[i];
          assert earlier[i] == atts[i];
        }
      }
    }
  }

  /** `handle_incomplete_grade`: the backward scan over the earlier attempts stops at the
      first valid grade. */
  method HandleIncompleteGrade(b: CourseBuckets, matches: seq<Attempt>, code: string, name: string,
                               semester: string, currentSemester: string)
    modifies b
    ensures b.State() == PyIncomplete(old(b.State()), matches, code, name, semester, currentSemester)
  {
    if semester == currentSemester {
      ghost var earlier := if matches == [] then [] else matches[..|matches| - 1];
      ghost var completed0 := b.completed;
      var i := |matches| - 2;
      ghost var found := false;
      while i >= 0
        invariant -2 <= i <= |matches| - 2 && i < |earlier|
        invariant forall j :: 0 <= j < |earlier| && i < j ==> !Graded(earlier[j])
        invariant b.completed == completed0 && b.current == old(b.current)
        invariant b.preRegistered == old(b.preRegistered)
        invariant !found
      {
        var prev := matches[i];
        assert earlier[i] == prev;
        if IsValidGrade(prev.grade) {
          LatestValidIsNearest(earlier, i);
          b.completed := b.completed[code := Completion(name, prev.grade, prev.semester, None)];
          found := true;
          assert b.completed == PriorCompletion(completed0, earlier, code, name);
          break;
        }
        i := i - 1;
      }
      if !found {
        LatestValidNone(earlier);
      }
      assert b.completed == PriorCompletion(completed0, earlier, code, name);
      b.current := b.current[code := Enrolment(name, "-")];
    } else {
      b.preRegistered := b.preRegistered[code := Enrolment(name, "-")];
    }
  }

  /** `process_row`: the stripped cells, the attempts found, and the last one deciding. */
  method ProcessRow(b: CourseBuckets, codeCell: string, nameCell: string, resultsCell: string,
                    currentSemester: string)
    modifies b
    ensures b.State() == PyClassifyRow(old(b.State()), codeCell, nameCell, resultsCell, currentSemester)
  {
    var courseCode := Trim(codeCell);
    var courseName := Trim(nameCell);
    var results := Trim(resultsCell);
    var matches := ScanAttempts(results);
    if |matches| > 0 {
      var lastResult := matches[|matches| - 1];
      var grade := Trim(lastResult.grade);
      var semester := Trim(lastResult.semester);
      if grade == "-" {
        HandleIncompleteGrade(b, matches, courseCode, courseName, semester, currentSemester);
      } else if IsValidGrade(grade) {
        b.completed := b.completed[courseCode := Completion(courseName, grade, semester, None)];
      }
    }
  }

  // ---------------------------------------------------------------------------------------
  // get_course_details

  /** `str.title()` on ASCII text: a letter that follows a letter is lower case, every other
      letter upper case. Unlike the app's title case, a digit or an apostrophe ends the word. */
  function Title(s: string): string {
    seq(|s|, i requires 0 <= i < |s| =>
      if IsLetter(s[i]) && (i == 0 || !IsLetter(s[i - 1])) then UpperChar(s[i]) else LowerChar(s[i]))
  }

  /** `title()` lower-cases every letter that does not start a word, so lower-casing first
      changes nothing. */
  lemma TitleCaseIgnoresCase(s: string)
    ensures Title(ToLower(s)) == Title(s)
  {
    var l := ToLower(s);
    forall i | 0 <= i < |s|
      ensures Title(l)[i] == Title(s)[i]
    {
      CaseMapping(s[i]);
      if i > 0 {
        CaseMapping(s[i - 1]);
      }
    }
  }

  /** On text without digits and apostrophes, `title()` and the app's lower-case-then-title-case
      agree. */
  lemma {:induction false} TitleAgreesOnPlain(s: string)
    requires Plain(s)
    ensures Title(s) == TitleCase(ToLower(s))
  {
    var l := ToLower(s);
    forall i | 0 <= i < |s|
      ensures Title(s)[i] == TitleCase(l)[i]
    {
      CaseMapping(s[i]);
      assert Plain(l) by {
        forall k | 0 <= k < |l|
          ensures !InWordMark(l[k])
        {
          CaseMapping(s[k]);
        }
      }
      PlainWordOpen(l, i);
      if i > 0 {
        CaseMapping(s[i - 1]);
      }
    }
  }

  /** Where they part: the app's title case carries a word on through an apostrophe or a
      digit, `title()` starts a new one. */
  lemma TitleDiffers()
    ensures TitleCase("o'reilly") == "O'reilly" && Title("o'reilly") == "O'Reilly"
    ensures TitleCase("a3b") == "A3b" && Title("a3b") == "A3B"
  {
    var s, t := "o'reilly", TitleCase("o'reilly");
    assert WordOpen(s, 1) && WordOpen(s, 2);
    assert t[0] == 'O' && t[2] == 'r';
    assert forall i :: 1 <= i < |s| ==> t[i] == s[i];
    var u := Title(s);
    assert u[2] == 'R';
    assert forall i :: 0 <= i < |s| && i != 0 && i != 2 ==> u[i] == s[i];
    var a, b := "a3b", TitleCase("a3b");
    assert WordOpen(a, 2);
    assert b[0] == 'A' && b[1] == '3' && b[2] == 'b';
    var c := Title(a);
    assert c[0] == 'A' && c[1] == '3' && c[2] == 'B';
  }

  /** `get_course_details`: the same pattern as the app's, the name passed to `title()` as
      captured. It finds the same id and section as the app, and a name that differs at most in
      the case of its letters; on a name without digits and apostrophes the two agree. */
  function GetCourseDetails(course: string): (r: CourseDetails)
    ensures r.classId == ParseCourseDetails(course).classId && r.section == ParseCourseDetails(course).section
    ensures ToLower(r.name) == ToLower(ParseCourseDetails(course).name)
    ensures Plain(ParseCourseDetails(course).name) ==> r == ParseCourseDetails(course)
  {
    match MatchCourseLink(course)
    case None => NoDetails
    case Some(m) =>
      TitleLetters(m.name);
      TitleCaseLetters(ToLower(m.name));
      ToLowerIdempotent(m.name);
      if Plain(TitleCase(ToLower(m.name))) then
        PlainBeneathCase(m.name);
        TitleAgreesOnPlain(m.name);
        m.(name := Title(m.name))
      else m.(name := Title(m.name))
  }

  /** The error `select_one(...).text` raises when the page has no navigation link. */
  const NoLinkText: string := "'NoneType' object has no attribute 'text'"

  /** The display name in `event_stream`: the link's text as it is (not trimmed), turned round
      at a comma as the app does, then `title()`; a page without the link raises. Only the case
      of its letters differs from the name turned round. */
  function PyUserName(link: Option<string>): (r: Result<string>)
    ensures link.None? <==> r.Err?
    ensures r.Ok? ==> ToLower(r.value) == ToLower(StudentService.SwapComma(link.value))
  {
    match link
    case None => Err(NoLinkText)
    case Some(text) =>
      var user := StudentService.SwapComma(text);
      TitleLetters(user);
      Ok(Title(user))
  }

  /** On a trimmed link text whose turned-round name has no digits or apostrophes, the Python
      server shows the name the app shows. */
  lemma PyUserNameAgrees(text: string)
    requires Trim(text) == text && Plain(StudentService.SwapComma(text))
    ensures PyUserName(Some(text)) == Ok(StudentService.UserName(Some(text)))
  {
    TitleAgreesOnPlain(StudentService.SwapComma(text));
  }

  /** A name that is plain once title-cased was plain to begin with. */
  lemma PlainBeneathCase(name: string)
    requires Plain(TitleCase(ToLower(name)))
    ensures Plain(name)
  {
    TitleCaseLetters(ToLower(name));
    forall k | 0 <= k < |name|
      ensures !InWordMark(name[k])
    {
      CaseMapping(name[k]);
      assert !InWordMark(TitleCase(ToLower(name))[k]);
    }
  }

  /** `title()` changes the case of letters only. */
  lemma TitleLetters(s: string)
    ensures ToLower(Title(s)) == ToLower(s)
  {
    forall i | 0 <= i < |s|
      ensures ToLower(Title(s))[i] == ToLower(s)[i]
    {
      CaseMapping(s[i]);
    }
  }

  // ---------------------------------------------------------------------------------------
  // the login checks of event_stream

  /** How the login part of `event_stream` ends: it goes on to fetch the student page, or it
      reports an error message and stops. */
  datatype LoginStatus = Proceed | Failure(message: string)

  const CredentialsRequired: string := "Username and password are required"
  const ServerError: string := "AIUB Server error. Try again later"
  const RequestError: string := "Error in request"
  const CaptchaRequired: string := "Captcha required. Solve it from portal."
  const InvalidCredentials: string := "Invalid username or password"
  const EvaluationPendingMessage: string := "TPE Evaluation Pending"

  /** The checks of `event_stream` up to the student page. `captchaStyle` is what the page
      yields for `#captcha`: `None` without the element, else its style attribute if any. The
      style is compared for equality with "display: none", and the captcha is looked at only
      when the final URL is outside the student area. */
  function LoginCheck(username: Option<string>, password: Option<string>, statusCode: int,
                      finalUrl: string, captchaStyle: Option<Option<string>>): LoginStatus
  {
    if username.None? || password.None? then Failure(CredentialsRequired)
    else if username.value == "" || password.value == "" then Failure(CredentialsRequired)
    else if statusCode != 200 then (if statusCode >= 500 then Failure(ServerError) else Failure(RequestError))
    else if !HttpClient.LoginSuccessful(finalUrl) then
      (if captchaStyle.Some? && captchaStyle.value != Some("display: none") then Failure(CaptchaRequired)
       else Failure(InvalidCredentials))
    else if HttpClient.EvaluationPending(finalUrl) then Failure(EvaluationPendingMessage)
    else Proceed
  }

  /** The attempt goes on exactly when both credentials are non-empty, the portal answered
      200, and the final URL is in the student area without the evaluation marker. */
  lemma LoginProceedsExactly(username: Option<string>, password: Option<string>, statusCode: int,
                             finalUrl: string, captchaStyle: Option<Option<string>>)
    ensures LoginCheck(username, password, statusCode, finalUrl, captchaStyle) == Proceed <==>
      username.Some? && username.value != "" && password.Some? && password.value != "" &&
      statusCode == 200 && (exists i :: OccursAt(finalUrl, HttpClient.StudentPrefix, i)) &&
      !exists i :: OccursAt(finalUrl, HttpClient.EvaluationMarker, i)
  {
  }

  /** The status line is classified before anything else of the answer: 5xx is a server
      error, any other non-200 a request error. */
  lemma StatusFirst(username: string, password: string, statusCode: int, finalUrl: string,
                    captchaStyle: Option<Option<string>>)
    requires username != "" && password != "" && statusCode != 200
    ensures LoginCheck(Some(username), Some(password), statusCode, finalUrl, captchaStyle) ==
      if statusCode >= 500 then Failure(ServerError) else Failure(RequestError)
  {
  }

  /** Inside the student area the captcha is never consulted. */
  lemma CaptchaIgnoredInStudentArea(username: Option<string>, password: Option<string>, statusCode: int,
                                    finalUrl: string, s1: Option<Option<string>>, s2: Option<Option<string>>)
    requires HttpClient.LoginSuccessful(finalUrl)
    ensures LoginCheck(username, password, statusCode, finalUrl, s1) == LoginCheck(username, password, statusCode, finalUrl, s2)
  {
  }

  /** The two implementations read a captcha style differently: "display: none;" hides the
      captcha for the app, which looks for the text inside the style, while Python, which
      compares the whole style, reports a captcha. */
  lemma CaptchaStyleReadDifferently(username: string, password: string, finalUrl: string)
    requires username != "" && password != "" && !HttpClient.LoginSuccessful(finalUrl)
    ensures var style := "display: none;";
      !HttpClient.CheckForCaptcha(HttpClient.ResponsePage(Some(HttpClient.CaptchaDiv(map["style" := style], None)), None)) &&
      LoginCheck(Some(username), Some(password), 200, finalUrl, Some(Some(style))) == Failure(CaptchaRequired)
  {
    var style := "display: none;";
    assert OccursAt(style, HttpClient.HiddenStyle, 0);
    assert style != "display: none" by {
      assert |style| == 14;
    }
  }

  /** The two implementations order the captcha check differently: with a visible captcha on
      a page reached inside the student area, the app reports the captcha and Python goes on. */
  lemma CaptchaOrderDiffers<D>(username: string, password: string, finalUrl: string, data: D)
    requires username != "" && password != ""
    requires HttpClient.LoginSuccessful(finalUrl) && !HttpClient.EvaluationPending(finalUrl)
    ensures var page := HttpClient.ResponsePage(Some(HttpClient.CaptchaDiv(map[], None)), None);
      PortalService.LoginAsync(Ok(PortalService.LoginResponse(page, finalUrl)), Ok(data)) ==
        PortalService.LoginOutcome(false, PortalService.CaptchaMessage, None) &&
      LoginCheck(Some(username), Some(password), 200, finalUrl, Some(None)) == Proceed
  {
    var page := HttpClient.ResponsePage(Some(HttpClient.CaptchaDiv(map[], None)), None);
    HttpClient.MissingStyleVisible(page);
  }

  // ---------------------------------------------------------------------------------------
  // push_notification

  /** The body of a push request. */
  datatype PushRequest = PushRequest(auth: string, act: string, title: string, message: string)

  /** The JSON answer of the endpoint. */
  datatype PushResponse = PushResponse(status: string, message: string)

  const PushActs: seq<string> := ["server", "dev", "aiub"]

  /** `push_notification`'s checks against the stored authentication id, in order: the
      authentication, then title and message, then the kind of sender. */
  function PushCheck(request: PushRequest, authId: string): (r: PushResponse)
    ensures r.status == "success" <==>
      request.auth == authId && request.title != "" && request.message != "" && request.act in PushActs
    ensures r.status == "success" || r.status == "error"
  {
    if request.auth != authId then PushResponse("error", "Invalid authentication")
    else if request.title == "" || request.message == "" then PushResponse("error", "Title and message are required")
    else if request.act == "" then PushResponse("error", "Act as type is required")
    else if request.act !in PushActs then PushResponse("error", "Act must be either server, dev or aiub")
    else PushResponse("success", "Notification sent successfully")
  }

  /** A wrong authentication id is reported whatever else is wrong with the request, and an
      empty sender kind is reported as missing rather than as unknown. */
  lemma PushCheckOrder(request: PushRequest, authId: string)
    ensures request.auth != authId ==> PushCheck(request, authId) == PushResponse("error", "Invalid authentication")
    ensures request.auth == authId && request.title != "" && request.message != "" && request.act == "" ==>
      PushCheck(request, authId) == PushResponse("error", "Act as type is required")
  {
  }
}
