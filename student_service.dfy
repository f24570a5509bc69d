/** The student page: the signed-in student's display name, the current semester, the semester
    options of the registration drop-down, and the assembly of everything the other services
    compute into the student record. */
module StudentService {
  import opened Wrappers
  import opened Text
  import opened Records
  import opened GradeHistory
  import opened Curriculum
  import opened Schedule
  import opened CourseAnalysis

  const Unknown: string := "Unknown"

  /** A node's trimmed inner text, or "Unknown" when the page lacks the node. */
  function TextOrUnknown(node: Option<string>): (r: string)
    ensures node.None? ==> r == Unknown
    ensures node.Some? ==> r == Trim(node.value)
  {
    match node
    case None => Unknown
    case Some(text) => Trim(text)
  }

  /** A name the portal writes "Last, First" is turned round to "First Last": the second
      comma-separated piece, a space, the first piece, both trimmed; later pieces are dropped.
      A name without a comma is kept. */
  function SwapComma(user: string): (r: string)
    ensures ',' !in user ==> r == user
  {
    if ',' in user then
      SplitMany(user, ',');
      var parts := Split(user, ',');
      Trim(parts[1]) + " " + Trim(parts[0])
    else user
  }

  /** The swap on a name made of comma-free pieces: with one comma, and with further pieces
      after a second comma, which are dropped. */
  lemma SwapCommaPieces(last: string, first: string, rest: string)
    requires ',' !in last && ',' !in first
    ensures SwapComma(last + "," + first) == Trim(first) + " " + Trim(last)
    ensures SwapComma(last + "," + first + "," + rest) == Trim(first) + " " + Trim(last)
  {
    assert last + "," + first == last + [','] + first;
    SplitPair(last, first, ',');
    var long := last + "," + first + "," + rest;
    assert long == last + [','] + (first + [','] + rest);
    SplitAround(last, first + [','] + rest, ',');
    SplitAround(first, rest, ',');
    SplitSingle(last, ',');
    SplitSingle(first, ',');
    assert ',' in long by {
      assert long[|last|] == ',';
    }
  }

  /** The display name: the navigation link's text (or "Unknown"), turned round at a comma,
      lower-cased and then title-cased. Only the case of its letters differs from the name
      turned round. */
  function UserName(node: Option<string>): (r: string)
    ensures |r| == |SwapComma(TextOrUnknown(node))|
    ensures ToLower(r) == ToLower(SwapComma(TextOrUnknown(node)))
  {
    var swapped := SwapComma(TextOrUnknown(node));
    TitleCaseLetters(ToLower(swapped));
    ToLowerIdempotent(swapped);
    TitleCase(ToLower(swapped))
  }

  /** Every letter is upper case exactly when it opens a word. */
  predicate TitleCased(r: string) {
    forall i :: 0 <= i < |r| && IsLetter(r[i]) ==> (IsUpper(r[i]) <==> !WordOpen(r, i))
  }

  /** Title case leaves the letters where they were and capitalises exactly the letter that
      opens each word. */
  lemma TitleCaseShape(s: string)
    ensures |TitleCase(s)| == |s|
    ensures forall i :: 0 <= i < |s| ==> (IsLetter(TitleCase(s)[i]) <==> IsLetter(s[i]))
    ensures TitleCased(TitleCase(s))
  {
    var t := TitleCase(s);
    TitleCaseLetters(s);
    forall i | 0 <= i < |t| && IsLetter(t[i])
      ensures IsUpper(t[i]) <==> !WordOpen(t, i)
    {
      CaseMapping(s[i]);
      WordOpenSameShape(s, t, i);
    }
  }

  /** The display name is title-cased whatever the portal wrote. */
  lemma UserNameTitleCased(node: Option<string>)
    ensures TitleCased(UserName(node))
  {
    TitleCaseShape(ToLower(SwapComma(TextOrUnknown(node))));
  }

  /** A page without the navigation link shows the student as "Unknown". */
  lemma UnknownUser()
    ensures UserName(None) == Unknown
  {
    var lower := ToLower(Unknown);
    assert lower == "unknown" by {
      assert lower[0] == 'u';
    }
    var t := TitleCase(lower);
    assert t[0] == 'U';
    assert forall i :: 1 <= i < |t| ==> t[i] == lower[i];
    assert t == Unknown;
  }

  /** A drop-down option: its inner text and its `value` attribute when present. */
  datatype OptionNode = OptionNode(text: string, value: Option<string>)

  /** The regular expression `q=(.+)` can start matching at `i`: "q=" followed by a character
      that is not a line break. */
  predicate QueryStart(s: string, i: int) {
    0 <= i && i + 2 < |s| && s[i] == 'q' && s[i + 1] == '=' && s[i + 2] != '\n'
  }

  /** The text of `s` from `q` up to the first line break or the end. */
  function LineFrom(s: string, q: nat): (r: string)
    requires q <= |s|
    ensures q + |r| <= |s| && s[q..q + |r|] == r
    ensures forall k :: 0 <= k < |r| ==> r[k] != '\n'
    ensures q + |r| == |s| || s[q + |r|] == '\n'
  {
    s[q..q + IndexOf(s[q..], '\n')]
  }

  /** Where the leftmost match of `q=(.+)` at or after `p` starts: the first usable "q=". */
  function QueryIndex(s: string, p: nat): (r: Option<nat>)
    requires p <= |s|
    ensures r.Some? ==> p <= r.value && QueryStart(s, r.value)
    ensures r.Some? ==> forall j :: p <= j < r.value ==> !QueryStart(s, j)
    ensures r.None? ==> forall i :: p <= i ==> !QueryStart(s, i)
    decreases |s| - p
  {
    if p + 2 >= |s| then None
    else if QueryStart(s, p) then Some(p)
    else QueryIndex(s, p + 1)
  }

  /** The query parameter of an option value: the group of the leftmost match of `q=(.+)`,
      that is what follows the first usable "q=" up to the end of its line. */
  function QueryParam(value: string): (r: Option<string>)
    ensures r.Some? <==> exists i :: QueryStart(value, i)
    ensures r.Some? ==> |r.value| > 0 && '\n' !in r.value
  {
    match QueryIndex(value, 0)
    case None => None
    case Some(i) => Some(LineFrom(value, i + 2))
  }

  /** A value "...q=v" whose prefix has no 'q' and whose `v` is one non-empty line gives `v`. */
  lemma QueryAfterPrefix(prefix: string, v: string)
    requires forall k :: 0 <= k < |prefix| ==> prefix[k] != 'q'
    requires |v| > 0 && forall k :: 0 <= k < |v| ==> v[k] != '\n'
    ensures QueryParam(prefix + "q=" + v) == Some(v)
  {
    var s := prefix + "q=" + v;
    var n := |prefix|;
    assert s[n] == 'q' && s[n + 1] == '=' && s[n + 2] == v[0];
    assert QueryStart(s, n);
    var i := QueryIndex(s, 0).value;
    assert i == n;
    var rest := s[n + 2..];
    assert rest == v;
    assert IndexOf(rest, '\n') == |v|;
    assert s[n + 2..n + 2 + |v|] == v;
  }

  /** What an option contributes: its trimmed text and query parameter, when it has one. */
  function OptionEntry(o: OptionNode): Option<(string, string)> {
    var query := QueryParam(o.value.GetOr(""));
    if query.Some? then Some((Trim(o.text), query.value)) else None
  }

  /** The kept options in order. */
  function SemesterList(options: seq<OptionNode>): seq<(string, string)>
    decreases |options|
  {
    if options == [] then []
    else
      var before := SemesterList(options[..|options| - 1]);
      var entry := OptionEntry(options[|options| - 1]);
      if entry.Some? then before + [entry.value] else before
  }

  /** The semester-option loop of `GetStudentDataAsync`. */
  method CollectSemesters(options: seq<OptionNode>) returns (semesters: seq<(string, string)>)
    ensures semesters == SemesterList(options)
  {
    semesters := [];
    for i := 0 to |options|
      invariant semesters == SemesterList(options[..i])
    {
      assert options[..i + 1][..i] == options[..i];
      var option := options[i];
      var semesterName := Trim(option.text);
      var valueAttr := option.value.GetOr("");
      var query := QueryParam(valueAttr);
      if query.Some? {
        semesters := semesters + [(semesterName, query.value)];
      }
    }
    assert options[..|options|] == options;
  }

  /** Filtering keeps order: the options of a concatenation give the concatenated lists. */
  lemma {:induction false} SemesterListAppend(a: seq<OptionNode>, b: seq<OptionNode>)
    ensures SemesterList(a + b) == SemesterList(a) + SemesterList(b)
    decreases |b|
  {
    if b != [] {
      var front := b[..|b| - 1];
      assert (a + b)[..|a + b| - 1] == a + front;
      assert (a + b)[|a + b| - 1] == b[|b| - 1];
      SemesterListAppend(a, front);
    } else {
      assert a + b == a;
    }
  }

  /** One option is kept exactly when its value has a query parameter. */
  lemma OptionKept(o: OptionNode)
    ensures |SemesterList([o])| == 1 <==> QueryParam(o.value.GetOr("")).Some?
    ensures SemesterList([o]) == [] <==> QueryParam(o.value.GetOr("")).None?
  {
    assert [o][..0] == [];
  }

  /** Every kept option carries a non-empty, single-line query parameter. */
  lemma {:induction false} SemesterQueries(options: seq<OptionNode>)
    ensures forall k :: 0 <= k < |SemesterList(options)| ==>
      |SemesterList(options)[k].1| > 0 && '\n' !in SemesterList(options)[k].1
    decreases |options|
  {
    if options != [] {
      SemesterQueries(options[..|options| - 1]);
    }
  }

  /** What the student page yields: the navigation link's text, the selected option's text and
      the drop-down options. */
  datatype StudentPage = StudentPage(userLink: Option<string>, selectedSemester: Option<string>,
                                     options: seq<OptionNode>)

  /** What the other portal pages yield: the curriculum ids and each curriculum's rows, the
      grade-report rows, and each semester query's registration table. */
  datatype PortalPages = PortalPages(
    curriculumIds: seq<string>,
    curricula: string -> seq<CurriculumRow>,
    gradeRows: seq<seq<string>>,
    registration: string -> Option<seq<CourseCell>>)

  /** The result dictionary of `GetStudentDataAsync`, one field per key. */
  datatype StudentData = StudentData(
    user: string,
    currentSemester: string,
    semesterClassRoutine: map<string, Routine>,
    curriculumCourses: map<string, Course>,
    completedCourses: map<string, Completion>,
    currentSemesterCourses: map<string, Enrolment>,
    preregisteredCourses: map<string, Enrolment>,
    unlockedCourses: map<string, Unlocked>)

  /** `GetStudentDataAsync`. The three services run one after the other; the completed
      dictionary stored in the result is the one the resolver then writes credits into, so the
      result shows it after the backfill. */
  method GetStudentData(page: StudentPage, portal: PortalPages) returns (result: StudentData)
    ensures result.user == UserName(page.userLink)
    ensures result.currentSemester == TextOrUnknown(page.selectedSemester)
    ensures result.curriculumCourses == MergedCurricula(portal.curriculumIds, portal.curricula)
    ensures result.semesterClassRoutine == SemestersOf(SemesterList(page.options), portal.registration)
    ensures var buckets := ClassifyAll(portal.gradeRows, result.currentSemester);
      && result.completedCourses == Backfill(buckets.completed, result.curriculumCourses)
      && result.currentSemesterCourses == buckets.current
      && result.preregisteredCourses == buckets.preRegistered
      && result.unlockedCourses ==
           Resolve(result.curriculumCourses, buckets.completed, buckets.current, buckets.preRegistered)
  {
    var user := TextOrUnknown(page.userLink);
    if ',' in user {
      SplitMany(user, ',');
      var parts := Split(user, ',');
      user := Trim(parts[1]) + " " + Trim(parts[0]);
    }
    user := TitleCase(ToLower(user));
    var currentSemester := TextOrUnknown(page.selectedSemester);
    var semesters := CollectSemesters(page.options);

    var curriculumData := GetCurriculumData(portal.curriculumIds, portal.curricula);
    var buckets := GetCompletedCourses(portal.gradeRows, currentSemester);
    var semesterClassRoutine := ProcessSemesters(semesters, portal.registration);

    var unlockedCourses, completedCourses := ProcessUnlockedCourses(
      curriculumData, buckets.completed, buckets.current, buckets.preRegistered);
    result := StudentData(user, currentSemester, semesterClassRoutine, curriculumData,
                          completedCourses, buckets.current, buckets.preRegistered, unlockedCourses);
  }

  /** Every course the record offers is a curriculum course. */
  lemma UnlockedFromCurriculum(page: StudentPage, portal: PortalPages, code: string)
    requires var courseMap := MergedCurricula(portal.curriculumIds, portal.curricula);
      var buckets := ClassifyAll(portal.gradeRows, TextOrUnknown(page.selectedSemester));
      code in Resolve(courseMap, buckets.completed, buckets.current, buckets.preRegistered)
    ensures code in MergedCurricula(portal.curriculumIds, portal.curricula)
  {
    var courseMap := MergedCurricula(portal.curriculumIds, portal.curricula);
    var buckets := ClassifyAll(portal.gradeRows, TextOrUnknown(page.selectedSemester));
    ResolveKeys(courseMap, buckets.completed, buckets.current, buckets.preRegistered);
  }
}
