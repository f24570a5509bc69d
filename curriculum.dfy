/** The curriculum reader: each curriculum page's course rows become catalogue entries (name,
    credit, prerequisites), and the curricula of a student are merged into one course map. */
module Curriculum {
  import opened Wrappers
  import opened Text
  import opened Records

  /** A table row of a curriculum page: the text of each cell, and the texts of the list items
      inside the fourth cell (empty when it has none or the row is shorter). */
  datatype CurriculumRow = CurriculumRow(cells: seq<string>, prerequisiteItems: seq<string>)

  /** A code marked with '#' or '*', and the internship, are not taken into the catalogue. */
  predicate CurriculumExcluded(code: string, name: string) {
    '#' in code || '*' in code || name == "INTERNSHIP"
  }

  /** The values of the space-separated tokens that parse as integers, in order. */
  function TokenValues(tokens: seq<string>): (r: seq<int>)
    ensures forall k :: 0 <= k < |r| ==> exists i :: 0 <= i < |tokens| && TryParseInt32(tokens[i]) == Some(r[k])
    ensures forall i :: 0 <= i < |tokens| && TryParseInt32(tokens[i]).Some? ==> TryParseInt32(tokens[i]).value in r
    decreases |tokens|
  {
    if tokens == [] then []
    else
      var rest := TokenValues(tokens[1..]);
      assert forall k :: 0 <= k < |rest| ==> exists i :: 0 <= i < |tokens| && TryParseInt32(tokens[i]) == Some(rest[k]) by {
        forall k | 0 <= k < |rest|
          ensures exists i :: 0 <= i < |tokens| && TryParseInt32(tokens[i]) == Some(rest[k])
        {
          var i :| 0 <= i < |tokens[1..]| && TryParseInt32(tokens[1..][i]) == Some(rest[k]);
          assert tokens[i + 1] == tokens[1..][i];
        }
      }
      match TryParseInt32(tokens[0])
      case Some(v) => [v] + rest
      case None => rest
  }

  /** The credit of a curriculum row: the largest space-separated token that parses as an
      integer, and 0 when none does. */
  function CurriculumCredit(text: string): int {
    var values := TokenValues(Split(text, ' '));
    if values == [] then 0 else MaxOf(values)
  }

  /** The credit is 0 when no token parses; otherwise it is the value of some token, and no
      parsing token is larger. */
  lemma CurriculumCreditIsMax(text: string, tokens: seq<string>)
    requires tokens == Split(text, ' ')
    ensures forall i :: 0 <= i < |tokens| && TryParseInt32(tokens[i]).Some? ==> TryParseInt32(tokens[i]).value <= CurriculumCredit(text)
    ensures (forall i :: 0 <= i < |tokens| ==> TryParseInt32(tokens[i]).None?) ==> CurriculumCredit(text) == 0
    ensures (exists i :: 0 <= i < |tokens| && TryParseInt32(tokens[i]).Some?) ==>
              exists i :: 0 <= i < |tokens| && TryParseInt32(tokens[i]) == Some(CurriculumCredit(text))
  {
    var values := TokenValues(tokens);
    if values != [] {
      var k :| 0 <= k < |values| && values[k] == MaxOf(values);
      assert exists i :: 0 <= i < |tokens| && TryParseInt32(tokens[i]) == Some(values[k]);
    }
  }

  /** The prerequisite codes: the trimmed list-item texts in document order. */
  function Prerequisites(items: seq<string>): seq<string> {
    seq(|items|, i requires 0 <= i < |items| => Trim(items[i]))
  }

  /** The catalogue entry a row contributes: none for a row of fewer than four cells or an
      excluded course. */
  function RowEntry(row: CurriculumRow): Option<(string, Course)> {
    if |row.cells| < 4 then None
    else
      var code, name := Trim(row.cells[0]), Trim(row.cells[1]);
      if CurriculumExcluded(code, name) then None
      else Some((code, Course(name, CurriculumCredit(Trim(row.cells[2])), Prerequisites(row.prerequisiteItems))))
  }

  /** The courses of one curriculum page, row by row; a later row with the same code wins. */
  function CoursesOf(rows: seq<CurriculumRow>): map<string, Course>
    decreases |rows|
  {
    if rows == [] then map[]
    else
      var before := CoursesOf(rows[..|rows| - 1]);
      var entry := RowEntry(rows[|rows| - 1]);
      if entry.None? then before else before[entry.value.0 := entry.value.1]
  }

  /** The `<li>` loop of a row: the trimmed item texts appended in order. */
  method CollectPrerequisites(items: seq<string>) returns (prerequisites: seq<string>)
    ensures prerequisites == Prerequisites(items)
  {
    prerequisites := [];
    for i := 0 to |items|
      invariant prerequisites == Prerequisites(items[..i])
    {
      assert Prerequisites(items[..i + 1]) == Prerequisites(items[..i]) + [Trim(items[i])];
      prerequisites := prerequisites + [Trim(items[i])];
    }
    assert items[..|items|] == items;
  }

  /** `ProcessCurriculumAsync`, over the rows its page yields. */
  method ProcessCurriculum(rows: seq<CurriculumRow>) returns (courses: map<string, Course>)
    ensures courses == CoursesOf(rows)
  {
    courses := map[];
    for i := 0 to |rows|
      invariant courses == CoursesOf(rows[..i])
    {
      assert rows[..i + 1][..i] == rows[..i];
      var cells := rows[i].cells;
      if |cells| < 4 {
        continue;
      }
      var courseCode, courseName, creditText := Trim(cells[0]), Trim(cells[1]), Trim(cells[2]);
      if '#' in courseCode || '*' in courseCode || courseName == "INTERNSHIP" {
        continue;
      }
      var credit := CurriculumCredit(creditText);
      var prerequisites := CollectPrerequisites(rows[i].prerequisiteItems);
      courses := courses[courseCode := Course(courseName, credit, prerequisites)];
    }
    assert rows[..|rows|] == rows;
  }

  /** The row contributes an entry under `code`. */
  predicate Contributes(row: CurriculumRow, code: string) {
    RowEntry(row).Some? && RowEntry(row).value.0 == code
  }

  /** A row's code is in the course map of any rows that contain it. */
  lemma {:induction false} ContributedIsKey(rows: seq<CurriculumRow>, i: nat, code: string)
    requires i < |rows| && Contributes(rows[i], code)
    ensures code in CoursesOf(rows)
    decreases |rows|
  {
    var prefix, entry := rows[..|rows| - 1], RowEntry(rows[|rows| - 1]);
    if i == |rows| - 1 {
      assert CoursesOf(rows) == CoursesOf(prefix)[code := entry.value.1];
    } else {
      assert prefix[i] == rows[i];
      ContributedIsKey(prefix, i, code);
      if entry.Some? {
        assert CoursesOf(rows) == CoursesOf(prefix)[entry.value.0 := entry.value.1];
      } else {
        assert CoursesOf(rows) == CoursesOf(prefix);
      }
    }
  }

  /** A key of the course map comes from some row: the index of one that contributes it. */
  lemma {:induction false} KeyContributor(rows: seq<CurriculumRow>, code: string) returns (i: nat)
    requires code in CoursesOf(rows)
    ensures i < |rows| && Contributes(rows[i], code)
    decreases |rows|
  {
    var prefix := rows[..|rows| - 1];
    if Contributes(rows[|rows| - 1], code) {
      i := |rows| - 1;
    } else {
      i := KeyContributor(prefix, code);
      assert prefix[i] == rows[i];
    }
  }

  /** A code is in the course map exactly when some row contributes it. */
  lemma CoursesKeys(rows: seq<CurriculumRow>, code: string)
    ensures code in CoursesOf(rows) <==> exists i :: 0 <= i < |rows| && Contributes(rows[i], code)
  {
    if code in CoursesOf(rows) {
      var i := KeyContributor(rows, code);
    }
    if exists i :: 0 <= i < |rows| && Contributes(rows[i], code) {
      var i :| 0 <= i < |rows| && Contributes(rows[i], code);
      ContributedIsKey(rows, i, code);
    }
  }

  /** A code holds the entry of the last row that contributes it. */
  lemma {:induction false} CoursesLastRowWins(rows: seq<CurriculumRow>, i: nat)
    requires i < |rows| && RowEntry(rows[i]).Some?
    requires forall j :: i < j < |rows| ==> RowEntry(rows[j]).None? || RowEntry(rows[j]).value.0 != RowEntry(rows[i]).value.0
    ensures RowEntry(rows[i]).value.0 in CoursesOf(rows)
    ensures CoursesOf(rows)[RowEntry(rows[i]).value.0] == RowEntry(rows[i]).value.1
    decreases |rows|
  {
    if i < |rows| - 1 {
      var prefix := rows[..|rows| - 1];
      assert forall j :: 0 <= j < |prefix| ==> prefix[j] == rows[j];
      CoursesLastRowWins(prefix, i);
    }
  }

  /** A row of fewer than four cells is ignored. */
  lemma ShortRowIgnored(rows: seq<CurriculumRow>, row: CurriculumRow)
    requires |row.cells| < 4
    ensures CoursesOf(rows + [row]) == CoursesOf(rows)
  {
    assert (rows + [row])[..|rows|] == rows;
  }

  /** No course marked '#' or '*', and not the internship, is in a course map. */
  lemma {:induction false} CoursesNotExcluded(rows: seq<CurriculumRow>)
    ensures forall code :: code in CoursesOf(rows) ==> !CurriculumExcluded(code, CoursesOf(rows)[code].name)
    decreases |rows|
  {
    if rows != [] {
      CoursesNotExcluded(rows[..|rows| - 1]);
    }
  }

  // ---------------------------------------------------------------- merging curricula

  /** `GetCurriculumDataAsync`: the course maps of the non-empty curriculum ids, fetched through
      `pages`, merged in order so that a later curriculum overrides an earlier one. */
  function MergedCurricula(ids: seq<string>, pages: string -> seq<CurriculumRow>): map<string, Course>
    decreases |ids|
  {
    if ids == [] then map[]
    else
      var before := MergedCurricula(ids[..|ids| - 1], pages);
      var id := ids[|ids| - 1];
      if id == "" then before else before + CoursesOf(pages(id))
  }

  /** The merge loop: every course of `courses` is stored over `courseMap`. */
  method MergeCourses(courseMap: map<string, Course>, courses: map<string, Course>) returns (merged: map<string, Course>)
    ensures merged == courseMap + courses
  {
    merged := courseMap;
    var todo := courses.Keys;
    ghost var done: set<string> := {};
    while todo != {}
      invariant forall k :: k in courses <==> k in done || k in todo
      invariant done !! todo
      invariant forall k :: k in merged <==> k in courseMap || k in done
      invariant forall k :: k in done ==> merged[k] == courses[k]
      invariant forall k :: k in merged && k !in done ==> merged[k] == courseMap[k]
      decreases todo
    {
      var code :| code in todo;
      merged := merged[code := courses[code]];
      todo := todo - {code};
      done := done + {code};
    }
    assert merged == courseMap + courses;
  }

  method GetCurriculumData(ids: seq<string>, pages: string -> seq<CurriculumRow>) returns (courseMap: map<string, Course>)
    ensures courseMap == MergedCurricula(ids, pages)
  {
    courseMap := map[];
    for i := 0 to |ids|
      invariant courseMap == MergedCurricula(ids[..i], pages)
    {
      assert ids[..i + 1][..i] == ids[..i];
      var curriculumId := ids[i];
      if curriculumId != "" {
        var courses := ProcessCurriculum(pages(curriculumId));
        courseMap := MergeCourses(courseMap, courses);
      }
    }
    assert ids[..|ids|] == ids;
  }

  /** An empty curriculum id is never fetched: the merged map does not depend on its page. */
  lemma {:induction false} EmptyIdNeverFetched(ids: seq<string>, pages: string -> seq<CurriculumRow>, other: string -> seq<CurriculumRow>)
    requires forall id :: id != "" ==> pages(id) == other(id)
    ensures MergedCurricula(ids, pages) == MergedCurricula(ids, other)
    decreases |ids|
  {
    if ids != [] {
      EmptyIdNeverFetched(ids[..|ids| - 1], pages, other);
    }
  }

  /** The last curriculum decides the codes it lists and leaves every other code as before. */
  lemma MergedLast(ids: seq<string>, pages: string -> seq<CurriculumRow>, code: string)
    requires ids != []
    ensures var id, before, after := ids[|ids| - 1], MergedCurricula(ids[..|ids| - 1], pages), MergedCurricula(ids, pages);
      if id != "" && code in CoursesOf(pages(id)) then code in after && after[code] == CoursesOf(pages(id))[code]
      else (code in after <==> code in before) && (code in before ==> after[code] == before[code])
  {
  }

  /** The last curriculum that lists a code decides its entry. */
  lemma {:induction false} LaterCurriculumWins(ids: seq<string>, pages: string -> seq<CurriculumRow>, i: nat, code: string)
    requires i < |ids| && ids[i] != "" && code in CoursesOf(pages(ids[i]))
    requires forall j :: i < j < |ids| && ids[j] != "" ==> code !in CoursesOf(pages(ids[j]))
    ensures code in MergedCurricula(ids, pages) && MergedCurricula(ids, pages)[code] == CoursesOf(pages(ids[i]))[code]
    decreases |ids|
  {
    MergedLast(ids, pages, code);
    if i < |ids| - 1 {
      var prefix := ids[..|ids| - 1];
      assert forall j :: 0 <= j < |prefix| ==> prefix[j] == ids[j];
      LaterCurriculumWins(prefix, pages, i, code);
    }
  }
}
