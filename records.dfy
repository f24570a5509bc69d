/** Typed records for the string-keyed dictionaries that the portal services pass to each
    other, keyed by course code in every map. */
module Records {
  import opened Wrappers

  /** A curriculum entry: `course_name`, `credit` and the ordered `prerequisites` codes. */
  datatype Course = Course(name: string, credit: int, prerequisites: seq<string>)

  /** A completed-course record: `course_name`, `grade`, `semester`, and the `credit` the
      eligibility resolver writes back into it (absent until then). */
  datatype Completion = Completion(name: string, grade: string, semester: string, credit: Option<int>)

  /** A current-semester or pre-registered record: `course_name` and `grade` ("-" while pending). */
  datatype Enrolment = Enrolment(name: string, grade: string)

  /** An unlocked-course record: `course_name`, `credit`, `prerequisites`, `retake`. */
  datatype Unlocked = Unlocked(name: string, credit: int, prerequisites: seq<string>, retake: bool)
}
