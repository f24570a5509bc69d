/** The eligibility resolver of the course-analysis service: from the curriculum catalogue and
    the three grade-report buckets it computes the courses a student may register for next,
    either as a retake of a "D" or as a new course whose prerequisites are satisfied. */
module CourseAnalysis {
  import opened Wrappers
  import opened Text
  import opened Records

  /** A code the portal never offers: one containing '#' or '*', or the internship. */
  predicate Excluded(code: string, name: string) {
    '#' in code || '*' in code || name == "INTERNSHIP"
  }

  /** The course is taken this semester under the same name, and not as a withdrawal ("W")
      or an incomplete ("I"). */
  predicate ActiveAttempt(code: string, name: string, current: map<string, Enrolment>) {
    code in current && current[code].name == name && current[code].grade != "W" && current[code].grade != "I"
  }

  /** Every prerequisite is completed or being taken; pre-registration does not count. */
  predicate PrerequisitesMet(prerequisites: seq<string>, completed: map<string, Completion>,
                             current: map<string, Enrolment>) {
    forall p :: p in prerequisites ==> p in completed || p in current
  }

  /** A catalogue course completed with exactly a "D", which the student may retake. */
  predicate IsRetake(code: string, courseMap: map<string, Course>, completed: map<string, Completion>) {
    code in completed && completed[code].grade == "D" && code in courseMap
  }

  /** The retake entry: the name as the grade report gives it, credit and prerequisites from the catalogue. */
  function RetakeEntry(code: string, courseMap: map<string, Course>, completed: map<string, Completion>): Unlocked
    requires IsRetake(code, courseMap, completed)
  {
    Unlocked(completed[code].name, courseMap[code].credit, courseMap[code].prerequisites, true)
  }

  /** The entry offered for a catalogue course taken for the first time. */
  function Offer(info: Course): Unlocked {
    Unlocked(info.name, info.credit, info.prerequisites, false)
  }

  /** The decision for one catalogue course. A completed course is a retake when graded "D"
      and otherwise never offered; an excluded course or one being taken is not offered; a
      pre-registered course is offered outright; any other course is offered when it has no
      prerequisites or all of them are met. */
  function Outcome(code: string, courseMap: map<string, Course>, completed: map<string, Completion>,
                   current: map<string, Enrolment>, preRegistered: map<string, Enrolment>): Option<Unlocked>
    requires code in courseMap
  {
    var info := courseMap[code];
    if code in completed then
      if completed[code].grade == "D" then Some(RetakeEntry(code, courseMap, completed)) else None
    else if Excluded(code, info.name) then None
    else if ActiveAttempt(code, info.name, current) then None
    else if code in preRegistered then Some(Offer(info))
    else if |info.prerequisites| == 0 || PrerequisitesMet(info.prerequisites, completed, current) then Some(Offer(info))
    else None
  }

  /** The unlocked courses: every catalogue course whose decision is to offer it. */
  function Resolve(courseMap: map<string, Course>, completed: map<string, Completion>,
                   current: map<string, Enrolment>, preRegistered: map<string, Enrolment>): map<string, Unlocked>
  {
    map code | code in courseMap && Outcome(code, courseMap, completed, current, preRegistered).Some? ::
      Outcome(code, courseMap, completed, current, preRegistered).value
  }

  /** The completed records after the resolver wrote each catalogue course's credit into them. */
  function Backfill(completed: map<string, Completion>, courseMap: map<string, Course>): map<string, Completion>
  {
    map code | code in completed ::
      if code in courseMap then completed[code].(credit := Some(courseMap[code].credit)) else completed[code]
  }

  /** The retake entries of the completed courses in `seen`. */
  function RetakesAmong(courseMap: map<string, Course>, completed: map<string, Completion>,
                        seen: set<string>): map<string, Unlocked>
  {
    map code | code in seen && IsRetake(code, courseMap, completed) :: RetakeEntry(code, courseMap, completed)
  }

  /** The unlocked map part-way through the prerequisite pass: the retakes of the first pass
      and the decisions for the catalogue courses in `done`. */
  function Partial(courseMap: map<string, Course>, completed: map<string, Completion>,
                   current: map<string, Enrolment>, preRegistered: map<string, Enrolment>,
                   done: set<string>): map<string, Unlocked>
  {
    map code | code in courseMap && (code in done || IsRetake(code, courseMap, completed)) &&
               Outcome(code, courseMap, completed, current, preRegistered).Some? ::
      Outcome(code, courseMap, completed, current, preRegistered).value
  }

  /** The completed records part-way through the prerequisite pass. */
  function PartialBackfill(completed: map<string, Completion>, courseMap: map<string, Course>,
                           done: set<string>): map<string, Completion>
  {
    map code | code in completed ::
      if code in done && code in courseMap then completed[code].(credit := Some(courseMap[code].credit))
      else completed[code]
  }

  /** `ArePrerequisitesMet`: the first prerequisite that is neither completed nor current ends the scan. */
  method ArePrerequisitesMet(prerequisites: seq<string>, completed: map<string, Completion>,
                             current: map<string, Enrolment>) returns (met: bool)
    ensures met <==> PrerequisitesMet(prerequisites, completed, current)
  {
    for i := 0 to |prerequisites|
      invariant forall j :: 0 <= j < i ==> prerequisites[j] in completed || prerequisites[j] in current
    {
      if prerequisites[i] !in completed && prerequisites[i] !in current {
        return false;
      }
    }
    return true;
  }

  /** `ShouldSkipCourse`: the skip chain of the prerequisite pass. A completed course gets the
      catalogue credit written into its record; a pre-registered course is unlocked on the spot. */
  method ShouldSkipCourse(code: string, info: Course, completed: map<string, Completion>,
                          current: map<string, Enrolment>, preRegistered: map<string, Enrolment>,
                          unlocked: map<string, Unlocked>)
    returns (skip: bool, unlocked': map<string, Unlocked>, completed': map<string, Completion>)
    ensures skip <==> code in completed || Excluded(code, info.name) || code in unlocked ||
                      ActiveAttempt(code, info.name, current) || code in preRegistered
    ensures completed' == if code in completed then completed[code := completed[code].(credit := Some(info.credit))]
                          else completed
    ensures unlocked' == if code !in completed && !Excluded(code, info.name) && code !in unlocked &&
                            !ActiveAttempt(code, info.name, current) && code in preRegistered
                         then unlocked[code := Offer(info)] else unlocked
  {
    unlocked', completed' := unlocked, completed;
    if code in completed {
      completed' := completed[code := completed[code].(credit := Some(info.credit))];
      return true, unlocked', completed';
    }
    if '#' in code || '*' in code {
      return true, unlocked', completed';
    }
    if info.name == "INTERNSHIP" {
      return true, unlocked', completed';
    }
    if code in unlocked {
      return true, unlocked', completed';
    }
    if code in current {
      var currentCourse := current[code];
      if info.name == currentCourse.name && currentCourse.grade != "W" && currentCourse.grade != "I" {
        return true, unlocked', completed';
      }
    }
    if code in preRegistered {
      unlocked' := unlocked[code := Offer(info)];
      return true, unlocked', completed';
    }
    return false, unlocked', completed';
  }

  /** The first loop of `ProcessUnlockedCourses`: every catalogue course completed with a "D"
      becomes a retake entry. */
  method CollectRetakes(courseMap: map<string, Course>, completed: map<string, Completion>)
    returns (unlocked: map<string, Unlocked>)
    ensures unlocked == RetakesAmong(courseMap, completed, completed.Keys)
  {
    unlocked := map[];
    var todo := completed.Keys;
    while todo != {}
      invariant todo <= completed.Keys
      invariant unlocked == RetakesAmong(courseMap, completed, completed.Keys - todo)
      decreases |todo|
    {
      var code :| code in todo;
      ghost var seen := completed.Keys - todo;
      assert completed.Keys - (todo - {code}) == seen + {code};
      if completed[code].grade == "D" && code in courseMap {
        unlocked := unlocked[code := RetakeEntry(code, courseMap, completed)];
      }
      todo := todo - {code};
    }
    assert completed.Keys - todo == completed.Keys;
  }

  /** `ProcessUnlockedCourses`: the retake pass over the completed courses, then the
      prerequisite pass over the catalogue, each visiting its dictionary in whatever order it
      enumerates; the result does not depend on that order. */
  method ProcessUnlockedCourses(courseMap: map<string, Course>, completed: map<string, Completion>,
                                current: map<string, Enrolment>, preRegistered: map<string, Enrolment>)
    returns (unlocked: map<string, Unlocked>, completedOut: map<string, Completion>)
    ensures unlocked == Resolve(courseMap, completed, current, preRegistered)
    ensures completedOut == Backfill(completed, courseMap)
  {
    unlocked := CollectRetakes(courseMap, completed);
    RetakesFirst(courseMap, completed, current, preRegistered);
    PassBounds(courseMap, completed, current, preRegistered);

    // Courses that can be taken on their prerequisites.
    completedOut := completed;
    var todo := courseMap.Keys;
    ghost var done: set<string> := {};
    while todo != {}
      invariant forall k :: k in courseMap <==> k in done || k in todo
      invariant done !! todo
      invariant unlocked == Partial(courseMap, completed, current, preRegistered, done)
      invariant completedOut == PartialBackfill(completed, courseMap, done)
      decreases |todo|
    {
      var code :| code in todo;
      var info := courseMap[code];
      ghost var before := unlocked;
      ghost var o := Outcome(code, courseMap, completed, current, preRegistered);
      assert code in before <==> IsRetake(code, courseMap, completed);
      assert IsRetake(code, courseMap, completed) ==> before[code] == RetakeEntry(code, courseMap, completed);
      assert completedOut.Keys == completed.Keys;
      var skip;
      skip, unlocked, completedOut := ShouldSkipCourse(code, info, completedOut, current, preRegistered, unlocked);
      ghost var afterSkip := unlocked;
      var met := true;
      if !skip {
        var prerequisites := info.prerequisites;
        if |prerequisites| != 0 {
          met := ArePrerequisitesMet(prerequisites, completedOut, current);
        }
        if met {
          unlocked := unlocked[code := Offer(info)];
        }
      }
      assert unlocked == if o.Some? then before[code := o.value] else before by {
        SkipChainDecides(courseMap, completed, current, preRegistered, code, before, skip, afterSkip, met, unlocked);
      }
      assert unlocked == Partial(courseMap, completed, current, preRegistered, done + {code}) by {
        PartialStep(courseMap, completed, current, preRegistered, done, code);
      }
      assert completedOut == PartialBackfill(completed, courseMap, done + {code}) by {
        PartialStep(courseMap, completed, current, preRegistered, done, code);
      }
      todo := todo - {code};
      done := done + {code};
    }
    assert done == courseMap.Keys;
  }

  /** One step of the prerequisite pass adds the decision for `code` and at most the credit of its record. */
  lemma PartialStep(courseMap: map<string, Course>, completed: map<string, Completion>,
                    current: map<string, Enrolment>, preRegistered: map<string, Enrolment>,
                    done: set<string>, code: string)
    requires code in courseMap && code !in done
    ensures var before := Partial(courseMap, completed, current, preRegistered, done);
      var after := Partial(courseMap, completed, current, preRegistered, done + {code});
      var o := Outcome(code, courseMap, completed, current, preRegistered);
      after == if o.Some? then before[code := o.value] else before
    ensures PartialBackfill(completed, courseMap, done + {code}) ==
      if code in completed then
        PartialBackfill(completed, courseMap, done)[code := completed[code].(credit := Some(courseMap[code].credit))]
      else PartialBackfill(completed, courseMap, done)
  {
  }

  /** Before the prerequisite pass, the unlocked map holds exactly the retakes. */
  lemma RetakesFirst(courseMap: map<string, Course>, completed: map<string, Completion>,
                     current: map<string, Enrolment>, preRegistered: map<string, Enrolment>)
    ensures Partial(courseMap, completed, current, preRegistered, {}) == RetakesAmong(courseMap, completed, completed.Keys)
  {
  }

  /** The skip chain followed by the prerequisite test makes the decision `Outcome` states. */
  lemma SkipChainDecides(courseMap: map<string, Course>, completed: map<string, Completion>,
                         current: map<string, Enrolment>, preRegistered: map<string, Enrolment>,
                         code: string, before: map<string, Unlocked>, skip: bool,
                         afterSkip: map<string, Unlocked>, met: bool, after: map<string, Unlocked>)
    requires code in courseMap
    requires code in before <==> IsRetake(code, courseMap, completed)
    requires IsRetake(code, courseMap, completed) ==> before[code] == RetakeEntry(code, courseMap, completed)
    requires var info := courseMap[code];
      (skip <==> code in completed || Excluded(code, info.name) || code in before ||
                 ActiveAttempt(code, info.name, current) || code in preRegistered) &&
      afterSkip == (if code !in completed && !Excluded(code, info.name) && code !in before &&
                       !ActiveAttempt(code, info.name, current) && code in preRegistered
                    then before[code := Offer(info)] else before)
    requires !skip ==> (met <==> |courseMap[code].prerequisites| == 0 ||
                                 PrerequisitesMet(courseMap[code].prerequisites, completed, current))
    requires after == if !skip && met then afterSkip[code := Offer(courseMap[code])] else afterSkip
    ensures var o := Outcome(code, courseMap, completed, current, preRegistered);
      after == if o.Some? then before[code := o.value] else before
  {
    if IsRetake(code, courseMap, completed) {
      assert before[code := RetakeEntry(code, courseMap, completed)] == before;
    }
  }

  /** The prerequisite pass starts from the records as given and ends with the resolver's results. */
  lemma PassBounds(courseMap: map<string, Course>, completed: map<string, Completion>,
                   current: map<string, Enrolment>, preRegistered: map<string, Enrolment>)
    ensures PartialBackfill(completed, courseMap, {}) == completed
    ensures PartialBackfill(completed, courseMap, courseMap.Keys) == Backfill(completed, courseMap)
    ensures Partial(courseMap, completed, current, preRegistered, courseMap.Keys) ==
            Resolve(courseMap, completed, current, preRegistered)
  {
  }

  /** Every unlocked course is a catalogue course. */
  lemma ResolveKeys(courseMap: map<string, Course>, completed: map<string, Completion>,
                    current: map<string, Enrolment>, preRegistered: map<string, Enrolment>)
    ensures Resolve(courseMap, completed, current, preRegistered).Keys <= courseMap.Keys
  {
  }

  /** A catalogue course completed with a "D" is unlocked as a retake, named as in the grade
      report and with the catalogue's credit and prerequisites; and only such courses are
      unlocked as retakes. */
  lemma RetakeUnlocked(courseMap: map<string, Course>, completed: map<string, Completion>,
                       current: map<string, Enrolment>, preRegistered: map<string, Enrolment>, code: string)
    ensures var r := Resolve(courseMap, completed, current, preRegistered);
      IsRetake(code, courseMap, completed) ==> code in r && r[code] == RetakeEntry(code, courseMap, completed)
    ensures var r := Resolve(courseMap, completed, current, preRegistered);
      code in r && r[code].retake ==> IsRetake(code, courseMap, completed)
  {
  }

  /** A completed course is never offered anew: only its retake can be unlocked. */
  lemma CompletedNotOffered(courseMap: map<string, Course>, completed: map<string, Completion>,
                            current: map<string, Enrolment>, preRegistered: map<string, Enrolment>, code: string)
    requires code in completed
    ensures var r := Resolve(courseMap, completed, current, preRegistered);
      code in r <==> IsRetake(code, courseMap, completed)
  {
  }

  /** An excluded code is unlocked only as the retake of a completed course. */
  lemma ExcludedNotOffered(courseMap: map<string, Course>, completed: map<string, Completion>,
                           current: map<string, Enrolment>, preRegistered: map<string, Enrolment>, code: string)
    requires code in courseMap && Excluded(code, courseMap[code].name)
    ensures code in Resolve(courseMap, completed, current, preRegistered) ==> IsRetake(code, courseMap, completed)
  {
  }

  /** A course being taken this semester under its catalogue name, and not completed, is not unlocked. */
  lemma ActiveNotOffered(courseMap: map<string, Course>, completed: map<string, Completion>,
                         current: map<string, Enrolment>, preRegistered: map<string, Enrolment>, code: string)
    requires code in courseMap && code !in completed && ActiveAttempt(code, courseMap[code].name, current)
    ensures code !in Resolve(courseMap, completed, current, preRegistered)
  {
  }

  /** For a catalogue course that is neither completed, excluded nor being taken: a
      pre-registered one is unlocked whatever its prerequisites, and any other is unlocked
      exactly when it has no prerequisites or all of them are completed or current. */
  lemma OfferRule(courseMap: map<string, Course>, completed: map<string, Completion>,
                  current: map<string, Enrolment>, preRegistered: map<string, Enrolment>, code: string)
    requires code in courseMap && code !in completed
    requires !Excluded(code, courseMap[code].name) && !ActiveAttempt(code, courseMap[code].name, current)
    ensures var r := Resolve(courseMap, completed, current, preRegistered);
      code in preRegistered ==> code in r && r[code] == Offer(courseMap[code])
    ensures var r := Resolve(courseMap, completed, current, preRegistered);
      code !in preRegistered ==>
        (code in r <==> PrerequisitesMet(courseMap[code].prerequisites, completed, current))
    ensures var r := Resolve(courseMap, completed, current, preRegistered);
      code in r ==> r[code] == Offer(courseMap[code])
  {
  }

  /** One missing prerequisite keeps a course that is not pre-registered locked. */
  lemma MissingPrerequisite(courseMap: map<string, Course>, completed: map<string, Completion>,
                            current: map<string, Enrolment>, preRegistered: map<string, Enrolment>,
                            code: string, p: string)
    requires code in courseMap && code !in completed && code !in preRegistered
    requires p in courseMap[code].prerequisites && p !in completed && p !in current
    ensures code !in Resolve(courseMap, completed, current, preRegistered)
  {
  }

  /** The credit write-back: the same completed courses, each catalogue course's record
      carrying the catalogue credit and every other field unchanged. */
  lemma BackfillFields(completed: map<string, Completion>, courseMap: map<string, Course>, code: string)
    ensures Backfill(completed, courseMap).Keys == completed.Keys
    ensures var b := Backfill(completed, courseMap);
      code in completed ==>
        b[code].name == completed[code].name && b[code].grade == completed[code].grade &&
        b[code].semester == completed[code].semester &&
        b[code].credit == (if code in courseMap then Some(courseMap[code].credit) else completed[code].credit)
  {
  }

  /** The resolver as the service's code runs on the records the grade report stores. Those
      records are not `Dictionary<string, string>`, so the three type tests fail: the retake
      pass adds nothing, no credit is written back and the current-semester check never skips.
      The null guard on the prerequisite list is inverted, so every course that gets past the
      skip chain is skipped as well. What is left is the pre-registered branch of the chain. */
  function ResolveAsWritten(courseMap: map<string, Course>, completed: map<string, Completion>,
                            current: map<string, Enrolment>, preRegistered: map<string, Enrolment>): (r: map<string, Unlocked>)
    ensures forall code :: code in r ==> code in courseMap && code in preRegistered && !r[code].retake
  {
    map code | code in courseMap && code !in completed && !Excluded(code, courseMap[code].name) &&
               code in preRegistered :: Offer(courseMap[code])
  }

  /** As written, a first-year course without prerequisites is never unlocked; the intended
      resolver unlocks it. */
  lemma AsWrittenIgnoresPrerequisites()
    ensures var catalogue := map["CSC1101" := Course("INTRODUCTION TO PROGRAMMING", 3, [])];
      "CSC1101" !in ResolveAsWritten(catalogue, map[], map[], map[]) &&
      Resolve(catalogue, map[], map[], map[]) == map["CSC1101" := Offer(catalogue["CSC1101"])]
  {
    var catalogue := map["CSC1101" := Course("INTRODUCTION TO PROGRAMMING", 3, [])];
    OfferRule(catalogue, map[], map[], map[], "CSC1101");
    assert !Excluded("CSC1101", "INTRODUCTION TO PROGRAMMING") by {
      assert "CSC1101" == ['C', 'S', 'C', '1', '1', '0', '1'];
    }
  }

  /** As written, a course completed with a "D" is never offered for retake; the intended
      resolver offers it. */
  lemma AsWrittenLosesRetakes()
    ensures var catalogue := map["CSC1101" := Course("INTRODUCTION TO PROGRAMMING", 3, [])];
      var completed := map["CSC1101" := Completion("Introduction To Programming", "D", "Fall 2023-24", None)];
      ResolveAsWritten(catalogue, completed, map[], map[]) == map[] &&
      Resolve(catalogue, completed, map[], map[]) ==
        map["CSC1101" := Unlocked("Introduction To Programming", 3, [], true)]
  {
    var catalogue := map["CSC1101" := Course("INTRODUCTION TO PROGRAMMING", 3, [])];
    var completed := map["CSC1101" := Completion("Introduction To Programming", "D", "Fall 2023-24", None)];
    RetakeUnlocked(catalogue, completed, map[], map[], "CSC1101");
  }
}
