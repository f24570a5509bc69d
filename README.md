# AIUB portal scraper: decision logic in Dafny

This project models the part of the AIUB student-portal client that turns strings taken
from the portal's HTML into decisions. Each HTML node appears only as the string it yields:
a table row is a `seq<string>` of cell texts, a `<li>` list is a `seq<string>`, and an
attribute that may be missing is an `Option<string>`. The regular expressions of the source
are written out as small scanners with the same leftmost, greedy and lazy semantics.

The modules follow the source components:

- `Wrappers`, `Text` and `Records` hold shared definitions. `Text` has white-space trimming,
  substring search, splitting, ASCII case mapping, and `int.TryParse` with its 32-bit range.
  `Records` has typed records for the string-keyed dictionaries the services pass around.
- `CourseAnalysis` is the eligibility resolver (`ProcessUnlockedCourses`). It runs a retake
  pass over completed "D" courses, then a prerequisite pass with the skip chain. Both passes
  are methods over maps proved equal to the order-independent specification `Resolve`.
- `GradeHistory` is the grade-report classifier (`ProcessCourseRow`,
  `HandleIncompleteGrade`). The three bucket dictionaries are the fields of a class that
  these methods update in place.
- `Schedule` holds the registration-page helpers: `FormatTime`, `ParseTime`,
  `ParseCourseDetails`, the credit cell, and the day → time → slot routine.
- `Curriculum` holds the curriculum row loop and the merge of several curricula.
- `HttpClient` holds the URL predicates, the captcha checks, the cookie name/value view, and
  the `Cookie` ↔ `CookieData` mapping.
- `PortalService` holds the decision chain of `LoginAsync`.
- `StudentService` holds name normalisation, the "Unknown" defaults, the semester options,
  and the assembly of the student record.
- `LoginPage` holds the validation in `Login_Button_Clicked`.
- `PythonReference` holds the Python server's versions of the same logic, each related to
  the app's model by a lemma: `get_host`, `pack_data`, the classifier, `get_course_details`,
  the login checks, and the push-request validator.

The service passes its records around as `Dictionary<string, object>` values. The model uses
typed records instead, so the C# type tests `is Dictionary<string, string>` are treated as
always true. This is how the Python server behaves, and it is what the code evidently
intends. The literal C# behaviour is modelled separately, as `CourseAnalysis.ResolveAsWritten`
(see Findings).

Where the design description and the code disagree, the model follows the code:

- The login outcome is the `(success, message, result)` triple of the code, not a
  five-variant outcome type.
- A retake is offered for every completed "D" that is in the catalogue, even when the same
  code is also in another bucket.
- An unknown day abbreviation cannot reach the day table, because the pattern only admits
  the seven known abbreviations.
- The three readers run one after the other rather than concurrently.

## Model

| member | source | states |
|---|---|---|
| `CourseAnalysis.ArePrerequisitesMet` | Services/Portal/CourseAnalysisService.cs:102-112 | The scan answers true iff every listed prerequisite is a key of the completed or current bucket. So an empty list is met, and pre-registration is never consulted. |
| `CourseAnalysis.ShouldSkipCourse` | Services/Portal/CourseAnalysisService.cs:67-100 | A course is skipped iff it is completed, excluded ('#', '*', "INTERNSHIP"), already unlocked, taken now under the same name with a grade other than W/I, or pre-registered. A completed record gets the catalogue credit. A pre-registered course reaching that check is unlocked with retake false. Nothing else changes. |
| `CourseAnalysis.CollectRetakes` | Services/Portal/CourseAnalysisService.cs:19-37 | The first pass yields exactly the retake entries of the completed "D" courses in the catalogue, whatever order the dictionary enumerates them in. |
| `CourseAnalysis.ProcessUnlockedCourses` | Services/Portal/CourseAnalysisService.cs:11-65 | Both passes, in any enumeration order, give the resolver's specification `Resolve`. The completed records come back with the catalogue credit written in (`Backfill`). |
| `CourseAnalysis.Outcome` | Services/Portal/CourseAnalysisService.cs:19-98 | The decision for one catalogue course, independent of enumeration order. `RetakeUnlocked`, `CompletedNotOffered`, `ExcludedNotOffered`, `ActiveNotOffered`, `OfferRule` and `MissingPrerequisite` state it case by case. |
| `CourseAnalysis.Resolve` | Services/Portal/CourseAnalysisService.cs:11-65 | The unlocked map the two passes should build, against which `ProcessUnlockedCourses` is proved. Its keys are catalogue codes (`ResolveKeys`). |
| `CourseAnalysis.ResolveKeys` | Services/Portal/CourseAnalysisService.cs:40-62 | Every unlocked code is a catalogue code. |
| `CourseAnalysis.RetakeUnlocked` | Services/Portal/CourseAnalysisService.cs:20-37 | A catalogue course completed with exactly "D" is unlocked with retake true. Its name comes from the grade report, and its credit and prerequisites from the catalogue. Only such courses carry retake true. |
| `CourseAnalysis.CompletedNotOffered` | Services/Portal/CourseAnalysisService.cs:69-80 | A completed course is in the result iff it is a "D" retake. So the second pass never offers it anew, and it never replaces a retake entry with retake false. |
| `CourseAnalysis.ExcludedNotOffered` | Services/Portal/CourseAnalysisService.cs:78-79 | A code with '#' or '*', or named "INTERNSHIP", is unlocked only as a retake. |
| `CourseAnalysis.ActiveNotOffered` | Services/Portal/CourseAnalysisService.cs:82-86 | A course taken this semester under its catalogue name, with a grade other than W/I, and not completed, is not unlocked. |
| `CourseAnalysis.OfferRule` | Services/Portal/CourseAnalysisService.cs:52-98 | For a course that is not completed, excluded or being taken: if pre-registered, it is unlocked whatever its prerequisites. Otherwise it is unlocked iff all its prerequisites are completed or current. Such an entry always has retake false and the catalogue's fields. |
| `CourseAnalysis.MissingPrerequisite` | Services/Portal/CourseAnalysisService.cs:102-112 | One prerequisite that is in neither the completed nor the current bucket keeps a course locked, unless the course is pre-registered. |
| `CourseAnalysis.BackfillFields` | Services/Portal/CourseAnalysisService.cs:69-76 | The write-back keeps the same completed codes and changes only the credit, which becomes the catalogue credit. |
| `CourseAnalysis.ResolveAsWritten` | Services/Portal/CourseAnalysisService.cs:40-62 | As written, every unlocked course is a pre-registered catalogue course with retake false. |
| `CourseAnalysis.AsWrittenIgnoresPrerequisites` | Services/Portal/CourseAnalysisService.cs:49-52 | As written, a course without prerequisites is never unlocked. The intended resolver unlocks it. |
| `CourseAnalysis.AsWrittenLosesRetakes` | Services/Portal/CourseAnalysisService.cs:20-37 | As written, a completed "D" is never offered for retake. The intended resolver offers it. |
| `GradeHistory.MatchAttempt` | Services/Portal/CourseService.cs:69 | A match of `(semester)[grade]` covers a non-empty prefix. Its semester is non-empty and free of ')', and its grade is non-empty and free of ']'. |
| `GradeHistory.ScanAttempts` | Services/Portal/CourseService.cs:69 | All matches of the attempt pattern, left to right. `ScanRender` proves the scan inverse to printing attempts. |
| `GradeHistory.ScanRender` | Services/Portal/CourseService.cs:69 | Scanning attempts printed in report form gives the same attempts back, left to right. |
| `GradeHistory.LatestValidBelow` | Services/Portal/CourseService.cs:116-131 | The result is the nearest index below n whose grade is valid, with no valid grade between it and n, or none when no earlier attempt is valid. |
| `GradeHistory.HandleIncompleteGrade` | Services/Portal/CourseService.cs:102-148 | In the current semester, the course becomes current with grade "-", and the nearest earlier attempt with a valid grade (if any) becomes its completion. In any other semester, only the pre-registered bucket is updated. |
| `GradeHistory.ProcessCourseRow` | Services/Portal/CourseService.cs:54-100 | The buckets after one row are exactly `ClassifyRow` of those before. |
| `GradeHistory.GetCompletedCourses` | Services/Portal/CourseService.cs:20-52 | Fresh buckets filled row by row in document order. |
| `GradeHistory.ClassifyRowLocal` | Services/Portal/CourseService.cs:63-99 | A row changes the buckets at its own trimmed code only. |
| `GradeHistory.ClassifyRowPlacement` | Services/Portal/CourseService.cs:71-99 | The last attempt decides. A valid grade sets only the completed entry. "-" this semester sets the current entry and leaves pre-registered alone. "-" in another semester sets only the pre-registered entry. Any other grade changes nothing. |
| `GradeHistory.ClassifyRowNoAttempts` | Services/Portal/CourseService.cs:63-71 | A row with fewer than three cells, or without any attempt, changes no bucket. |
| `GradeHistory.IncompleteCompletion` | Services/Portal/CourseService.cs:113-132 | For a course in progress, the recorded completion is the nearest earlier valid attempt, and completed is unchanged when there is none. |
| `GradeHistory.RetakeInProgress` | Services/Portal/CourseService.cs:113-138 | A cell "(earlier)[D] (current)[-]" records the D as completed in the earlier semester and the course as current with "-". |
| `Schedule.TwelveHour` | Services/Portal/CourseService.cs:354-355 | For hours 0..23, the displayed hour lies in 1..12 and agrees with the hour modulo 12. |
| `Schedule.TimeTokens` | Services/Portal/CourseService.cs:295 | Every time token found starts with a digit and is at least three characters long. |
| `Schedule.FormatTime` | Services/Portal/CourseService.cs:332-361 | Formatting of one time token. `FormatTimeNoColon`, `FormatTwentyFour` and `FormatWithMark` state its three branches. |
| `Schedule.FormatTimeNoColon` | Services/Portal/CourseService.cs:351-360 | Text that cannot be split into hour and minute is returned unchanged. |
| `Schedule.FormatTwentyFour` | Services/Portal/CourseService.cs:349-357 | A token without am/pm is read on a 24-hour clock. It is PM iff hour ≥ 12; the hour is reduced by 12 above 12 and shown as 12 at 0; minutes are zero-padded to two digits. |
| `Schedule.FormatWithMark` | Services/Portal/CourseService.cs:335-346 | A token carrying am/pm in either case, spaced or not, keeps its hour as written. Its meridiem comes from the mark, and its minutes are padded. |
| `Schedule.ParenGroup` | Services/Portal/CourseService.cs:298 | The class type is found iff some '(' is closed on its line. The text it yields has no ')' or newline. |
| `Schedule.FirstDay` | Services/Portal/CourseService.cs:284-299 | A day is found iff one of the seven abbreviations occurs, and the result is one of the seven full names. |
| `Schedule.RoomFrom` | Services/Portal/CourseService.cs:300 | A room is found iff "Room: " occurs. It is the rest of that line. |
| `Schedule.ParseTime` | Services/Portal/CourseService.cs:280-330 | A slot is returned iff there are at least two time tokens, a parenthesised type, a day and a room. Its time is "start - end", formatted from the first two tokens, and its day is a full day name. |
| `Schedule.LazyNameShortest` | Services/Portal/CourseService.cs:255 | The lazy `(.+?)` settles on the shortest name after which the section brackets match. |
| `Schedule.MatchCourseLink` | Services/Portal/CourseService.cs:255 | A match of the course-link pattern captures an all-digit class id that prefixes the input, and a non-empty section. Text that does not start with a digit does not match. `MatchLink` shows that the match recovers the parts of every link text. |
| `Schedule.ParseCourseDetails` | Services/Portal/CourseService.cs:253-278 | Input that does not start with a digit gives three empty strings, and so does every result without a class id. A class id, when found, is all digits, is a prefix of the input, and comes with a non-empty section. |
| `Schedule.ParseCourseLink` | Services/Portal/CourseService.cs:255-270 | Reading "id-name [S1]" or "id-name [S1] [S2]" gives the id, the name lower-cased then title-cased, and S2 when present, else S1. |
| `Schedule.MatchLink` | Services/Portal/CourseService.cs:255 | The pattern matches "id-name [S1]" and "id-name [S1] [S2]", and captures the id, the name as written, and S2 when present, else S1. |
| `Schedule.CellCredit` | Services/Portal/CourseService.cs:198-208 | Without a credit cell the credit is 0. Otherwise it is one of the values of the '-'-separated pieces and no smaller than any of them. |
| `Schedule.CellCreditNonNegative` | Services/Portal/CourseService.cs:203-207 | No credit is negative. |
| `Schedule.CellCreditRange` | Services/Portal/CourseService.cs:199-208 | A range "a-b" counts as the larger end. |
| `Schedule.Insert` | Services/Portal/CourseService.cs:224-237 | Storing a slot creates the day's table when missing and replaces only the slot at that time. All other days and times are kept. |
| `Schedule.InsertInTwoSteps` | Services/Portal/CourseService.cs:224-229 | Creating the day's table and then assigning into it is `Insert`. |
| `Schedule.AddSpanSlots` | Services/Portal/CourseService.cs:210-240 | The inner loop adds one slot per span that mentions "Time" and parses, in document order. |
| `Schedule.GetSemesterData` | Services/Portal/CourseService.cs:186-241 | Blank cells and cells without a link add nothing. Every other cell adds the slots of its spans. |
| `Schedule.RoutineDays` | Services/Portal/CourseService.cs:221-229 | Every day key of a routine is one of the seven full day names. |
| `Schedule.ProcessSemesters` | Services/Portal/CourseService.cs:150-163 | One routine per option, stored under its name, in order. An unreadable page gives an empty routine. |
| `Schedule.SemestersLastWins` | Services/Portal/CourseService.cs:156-160 | Every option yields an entry, and a repeated name keeps the routine of its last option. |
| `Schedule.SemestersKeys` | Services/Portal/CourseService.cs:156-160 | The only keys are the option names. |
| `Curriculum.TokenValues` | Services/Portal/CurriculumService.cs:77-80 | The values are exactly those of the tokens that parse as integers. |
| `Curriculum.CurriculumCredit` | Services/Portal/CurriculumService.cs:76-85 | The credit of a curriculum row, which `CurriculumCreditIsMax` characterises. |
| `Curriculum.CurriculumCreditIsMax` | Services/Portal/CurriculumService.cs:76-85 | The credit is 0 when no token parses. Otherwise it is the value of some token, and no parsing token is larger. |
| `Curriculum.CollectPrerequisites` | Services/Portal/CurriculumService.cs:87-95 | The prerequisites are the trimmed list-item texts in document order, or empty when there are none. |
| `Curriculum.ProcessCurriculum` | Services/Portal/CurriculumService.cs:49-108 | The row loop builds `CoursesOf(rows)`. |
| `Curriculum.CoursesKeys` | Services/Portal/CurriculumService.cs:63-102 | A code is in the course map iff some row contributes it. |
| `Curriculum.CoursesLastRowWins` | Services/Portal/CurriculumService.cs:97-102 | A code holds the entry of the last row that contributes it. |
| `Curriculum.ShortRowIgnored` | Services/Portal/CurriculumService.cs:66 | A row with fewer than four cells changes nothing. |
| `Curriculum.CoursesNotExcluded` | Services/Portal/CurriculumService.cs:73-74 | No code with '#' or '*', and no course named "INTERNSHIP", is ever in the map. |
| `Curriculum.MergeCourses` | Services/Portal/CurriculumService.cs:38-41 | Merging stores every course of the new curriculum over the map. |
| `Curriculum.GetCurriculumData` | Services/Portal/CurriculumService.cs:18-47 | The curricula of the ids are merged in order, and empty ids are skipped. |
| `Curriculum.EmptyIdNeverFetched` | Services/Portal/CurriculumService.cs:34-37 | The result does not depend on what the page of an empty id would hold. |
| `Curriculum.MergedLast` | Services/Portal/CurriculumService.cs:38-41 | The last curriculum decides the codes it lists and leaves every other code as it was. |
| `Curriculum.LaterCurriculumWins` | Services/Portal/CurriculumService.cs:32-43 | The last curriculum that lists a code decides its entry. |
| `HttpClient.LoginSuccessful` | Services/Http/HttpClientWrapper.cs:86-89 | True iff "https://portal.aiub.edu/Student" occurs in the URL. |
| `HttpClient.EvaluationPending` | Services/Http/HttpClientWrapper.cs:91-94 | True iff "Student/Tpe/Start" occurs in the URL. |
| `HttpClient.CheckForCaptcha` | Services/Http/HttpClientWrapper.cs:96-109 | False without the captcha div. With the div, true iff its style (default "") does not contain "display: none". |
| `HttpClient.MissingStyleVisible` | Services/Http/HttpClientWrapper.cs:104-105 | A captcha div without a style attribute counts as visible. |
| `HttpClient.ImageUrl` | Services/Http/HttpClientWrapper.cs:125-130 | A src starting with '/' is prefixed with "https://portal.aiub.edu". Any other src is kept. |
| `HttpClient.ImageUrlIdempotent` | Services/Http/HttpClientWrapper.cs:127-130 | Resolving an address twice gives the same address as resolving it once. |
| `HttpClient.GetCaptchaDetails` | Services/Http/HttpClientWrapper.cs:111-137 | No div gives (false, "", ""). A div without the CaptchaId input fails with a null reference. A div without an img gives (false, "", ""). Otherwise the result is success with the resolved image URL and the id's value. |
| `HttpClient.CookieRoundTrip` | Services/Http/HttpClientWrapper.cs:164-173 | A cookie copied to a `CookieData` and back has the same name, value, domain, path, expiry, HttpOnly and Secure. |
| `HttpClient.ToData` | Services/Http/HttpClientWrapper.cs:164-173 | The record built for each cookie. `CookieRoundTrip` and `CookieDataRoundTrip` prove it inverse to `FromData`. |
| `HttpClient.FromData` | Services/Http/HttpClientWrapper.cs:210-215 | The cookie rebuilt from a record: the constructor takes path before domain, then the three initializers. `CookieRoundTrip` and `CookieDataRoundTrip` prove it inverse to `ToData`. |
| `HttpClient.CookieDataRoundTrip` | Services/Http/HttpClientWrapper.cs:210-215 | A record restored as a cookie and copied back is the same record. |
| `HttpClient.SaveRestore` | Services/Http/HttpClientWrapper.cs:162-173 | Saving a list of cookies and restoring it gives the same cookies in the same order. |
| `HttpClient.CookieDictLastWins` | Services/Http/HttpClientWrapper.cs:72-75 | Each name maps to the value of its last cookie. |
| `HttpClient.CookieDictKeys` | Services/Http/HttpClientWrapper.cs:72-75 | The keys are exactly the cookie names. |
| `HttpClient.AdmittedPrefix` | Services/Http/HttpClientWrapper.cs:208-223 | The number of records the restore loop adds before an exception: all records before that point are admitted, and the record there, if any, is not. |
| `HttpClient.CookieJar.GetCookies` | Services/Http/HttpClientWrapper.cs:67-78 | The loop builds the name → value view of the cookies. |
| `HttpClient.CookieJar.SerializeCookies` | Services/Http/HttpClientWrapper.cs:155-182 | One record per cookie, in order. |
| `HttpClient.CookieJar.DeserializeCookies` | Services/Http/HttpClientWrapper.cs:201-225 | As written, it always answers false and never changes the cookies. |
| `HttpClient.CookieJar.RestoreCookies` | Services/Http/HttpClientWrapper.cs:201-225 | With the intended guard, it answers true iff a non-empty list was parsed and every record is admitted by `new Cookie` and `Add`. A non-empty list appends, in order, the cookies before the first rejected record, which the handler turns into false. Anything else changes nothing. |
| `HttpClient.SaveThenRestore` | Services/Http/HttpClientWrapper.cs:155-225 | Saving a jar and restoring it into an empty jar (with the intended guard) gives back its cookies up to the first one the framework rejects. So it reproduces the whole jar iff the jar held a cookie and every cookie is admitted. |
| `PortalService.LoginForm` | Services/AIUBPortalService.cs:35-39 | The form has exactly the keys UserName and Password, holding the given credentials. |
| `PortalService.LoginAsync` | Services/AIUBPortalService.cs:27-87 | Success holds exactly when a result is returned. |
| `PortalService.CaptchaFirst` | Services/AIUBPortalService.cs:49-53 | A visible captcha gives the captcha failure, whatever the URL and the student data. |
| `PortalService.OutsideStudentArea` | Services/AIUBPortalService.cs:55-60 | With no visible captcha, a URL without the student prefix gives "Invalid username or password". |
| `PortalService.EvaluationNeverSucceeds` | Services/AIUBPortalService.cs:62-66 | A URL containing "Student/Tpe/Start" never gives success. |
| `PortalService.EvaluationPageReported` | Services/AIUBPortalService.cs:55-66 | At the evaluation page itself, the answer is the TPE message. |
| `PortalService.SuccessExactly` | Services/AIUBPortalService.cs:49-79 | Success iff the request went through, no captcha is visible, the prefix is present, the TPE marker is absent, and the student data was built. |
| `PortalService.ExceptionsCaught` | Services/AIUBPortalService.cs:81-86 | An exception becomes (false, "Error: " + message, null). |
| `StudentService.TextOrUnknown` | Services/Portal/StudentService.cs:37-38 | A missing node gives "Unknown". A present node gives its trimmed text. |
| `StudentService.SwapComma` | Services/Portal/StudentService.cs:41-45 | A name without a comma is kept. |
| `StudentService.SwapCommaPieces` | Services/Portal/StudentService.cs:41-45 | "Last,First" and "Last,First,rest" both become "First Last", with each piece trimmed and later pieces dropped. |
| `StudentService.UserName` | Services/Portal/StudentService.cs:37-46 | The display name is the swapped name up to the case of its letters: same length, and equal once both are lower-cased. `UserNameTitleCased` gives the case of each letter. |
| `StudentService.UserNameTitleCased` | Services/Portal/StudentService.cs:46 | The display name is title-cased whatever the portal wrote. |
| `Text.TitleCase` | Services/Portal/StudentService.cs:46 | `ToTitleCase` on lower-cased text. It changes only the case of letters, and its result is the same text once lower-cased (`TitleCaseLetters`). A letter is upper case iff it opens a word, where a word goes on through letters, digits and apostrophes (`TitleCaseShape`). |
| `StudentService.UnknownUser` | Services/Portal/StudentService.cs:37-46 | A page without the navigation link shows "Unknown". |
| `StudentService.QueryParam` | Services/Portal/StudentService.cs:64-67 | A parameter exists iff some "q=" is followed by a character on its line. It is non-empty and on one line. |
| `StudentService.QueryAfterPrefix` | Services/Portal/StudentService.cs:64-67 | "...q=v" gives v. |
| `StudentService.CollectSemesters` | Services/Portal/StudentService.cs:53-71 | The loop keeps the options with a query parameter, in order. |
| `StudentService.SemesterListAppend` | Services/Portal/StudentService.cs:58-70 | Filtering preserves order. |
| `StudentService.OptionKept` | Services/Portal/StudentService.cs:64-69 | An option is kept iff its value has a query parameter. |
| `StudentService.SemesterQueries` | Services/Portal/StudentService.cs:64-68 | Every kept option carries a non-empty, single-line parameter. |
| `StudentService.GetStudentData` | Services/Portal/StudentService.cs:29-111 | The record holds the name, semester, routine and curriculum. Its buckets are the classified grade report, with the credit backfill. Its unlocked courses are `Resolve` of the curriculum and the buckets, in that order. |
| `StudentService.UnlockedFromCurriculum` | Services/Portal/StudentService.cs:101-108 | Every unlocked course of the record is a curriculum course. |
| `LoginPage.UsernamePattern` | Pages/LoginPage.xaml.cs:8 | The username regex, written out. `PatternIsGroups` proves it equal to the three-group reading. |
| `LoginPage.PatternIsGroups` | Pages/LoginPage.xaml.cs:8 | The username pattern holds iff the string is three dash-separated digit groups of lengths 2-5-1 or 4-3-1. |
| `LoginPage.Validate` | Pages/LoginPage.xaml.cs:46-78 | There is no username error iff the trimmed username matches the pattern. There is no password error iff the password is non-empty. |
| `LoginPage.UsernameMessages` | Pages/LoginPage.xaml.cs:51-67 | An empty or missing trimmed username gives "Username is required". Any other rejected username gives the format message. |
| `LoginPage.TrimmedNotPassword` | Pages/LoginPage.xaml.cs:47-48 | White space around a valid id is forgiven, and the password is taken as typed. |
| `LoginPage.ChecksIndependent` | Pages/LoginPage.xaml.cs:46-78 | Each field's error depends on that field alone, so both fields can be flagged at once. |
| `LoginPage.Entry.Reject` | Pages/LoginPage.xaml.cs:53-56 | A rejected field is cleared and flagged, and the message becomes its placeholder. |
| `LoginPage.LoginButtonClicked` | Pages/LoginPage.xaml.cs:42-115 | Credentials go on to the login iff both checks pass. Each rejected field is flagged, and each accepted field is untouched. |
| `PythonReference.GetHost` | python/main_sse.py:152-160 | None, "" or fewer than three '/'-separated segments give "". The host never contains '/'. |
| `PythonReference.HostOfUrl` | python/main_sse.py:152-160 | The host of "scheme://host/path" is host. |
| `PythonReference.SkipPrimary` | python/main_sse.py:307-315 | `skip_primary`. `SkipPrimaryIsExcluded` relates it to the app's exclusion. |
| `PythonReference.SkipPrimaryIsExcluded` | python/main_sse.py:307-315 | `skip_primary` is the app's exclusion plus the code "0". |
| `PythonReference.ArePrerequisitesMet` | python/main_sse.py:332-336 | `are_prerequisites_met` with its early exit. `ArePrerequisitesMetIff` proves it equal to the all-prerequisites rule. |
| `PythonReference.ArePrerequisitesMetIff` | python/main_sse.py:332-336 | The scan holds iff every prerequisite is completed or current. |
| `PythonReference.PyOutcomeIsOutcome` | python/main_sse.py:317-330 | For each course, the Python decision is the app's, except that "0" is offered only as a retake. |
| `PythonReference.PyResolveIsResolve` | python/main_sse.py:295-305 | Without the code "0" in the catalogue, both implementations unlock the same courses with the same entries. |
| `PythonReference.ZeroOnlyRetake` | python/main_sse.py:307-309 | The placeholder code "0" is unlocked only as a retake. |
| `PythonReference.PyBackfillIsBackfill` | python/main_sse.py:318-322 | The credit backfill agrees with the app's when no completed catalogue course is excluded. |
| `PythonReference.MarkRetakes` | python/main_sse.py:270-278 | Every completed "D" becomes a retake entry. The loop fails with a KeyError exactly when some completed "D" is missing from the catalogue. |
| `PythonReference.ShouldSkipCourse` | python/main_sse.py:317-330 | The skip chain in the Python order, with the credit write-back and the pre-registered unlock. |
| `PythonReference.AddUnlockedCourses` | python/main_sse.py:295-305 | The second pass, in any order, gives `PyResolve`, and the records come back with `PyBackfill`. |
| `PythonReference.PackData` | python/main_sse.py:266-292 | The result is an error iff a completed "D" lacks a catalogue entry. Otherwise it is the Python resolver's result and backfill. |
| `PythonReference.PyRowIsClassifyRow` | python/main_sse.py:396-417 | With earlier attempts free of surrounding white space, `process_row` agrees with the app's classifier. |
| `PythonReference.HandleIncompleteGrade` | python/main_sse.py:420-439 | The backward scan stops at the first valid grade. |
| `PythonReference.ProcessRow` | python/main_sse.py:396-417 | The buckets after a row are `PyClassifyRow` of those before. |
| `PythonReference.TitleCaseIgnoresCase` | python/main_sse.py:483 | `title()` gives the same name whether or not the text is lower-cased first. |
| `PythonReference.TitleAgreesOnPlain` | python/main_sse.py:483 | On text without digits and apostrophes, `title()` equals the app's lower-case-then-`ToTitleCase`. |
| `PythonReference.TitleDiffers` | python/main_sse.py:483 | The two title cases differ after an apostrophe or a digit: "o'reilly" gives "O'reilly" in the app and "O'Reilly" in Python, and "a3b" gives "A3b" and "A3B". |

| `PythonReference.GetCourseDetails` | python/main_sse.py:478-491 | `get_course_details` finds the same class id and section as the app's `ParseCourseDetails`. Its name differs at most in the case of letters, and it is equal whenever the name has no digit or apostrophe. |
| `PythonReference.PyUserName` | python/main_sse.py:217-223 | The display name in `event_stream` fails iff the page has no navigation link. Otherwise it is the link text turned round at a comma, up to the case of its letters. |
| `PythonReference.PyUserNameAgrees` | python/main_sse.py:217-223 | On a trimmed link text whose turned-round name has no digits or apostrophes, Python shows the app's display name. |
| `PythonReference.LoginCheck` | python/main_sse.py:170-209 | The login checks of `event_stream`. `LoginProceedsExactly`, `StatusFirst`, `CaptchaIgnoredInStudentArea`, `CaptchaStyleReadDifferently` and `CaptchaOrderDiffers` state its content. |
| `PythonReference.LoginProceedsExactly` | python/main_sse.py:170-209 | The login goes on iff both credentials are non-empty, the status is 200, and the URL is in the student area without the TPE marker. |
| `PythonReference.StatusFirst` | python/main_sse.py:182-189 | A status of 500 or more is a server error. Any other non-200 status is "Error in request". |
| `PythonReference.CaptchaIgnoredInStudentArea` | python/main_sse.py:191-201 | The captcha is consulted only when the URL is outside the student area. |
| `PythonReference.CaptchaStyleReadDifferently` | python/main_sse.py:194 | The style "display: none;" hides the captcha for the app but not for Python, which compares the whole style. |
| `PythonReference.CaptchaOrderDiffers` | python/main_sse.py:191-209 | A visible captcha inside the student area stops the app's login but not Python's. |
| `PythonReference.PushCheck` | python/main_sse.py:104-117 | Success iff the auth matches, title and message are non-empty, and act is one of server, dev, aiub. |
| `PythonReference.PushCheckOrder` | python/main_sse.py:107-114 | A wrong auth is reported first. An empty act is reported as missing, not as unknown. |

## Findings

| source | as written | input that shows it | evidently intended | confidence | as-written member | corrected member |
|---|---|---|---|---|---|---|
| Services/Portal/CourseAnalysisService.cs:50 | `if (prerequisites != null) continue;` skips every course that gets past the skip chain | catalogue {CSC1101, no prerequisites}, empty buckets: nothing is unlocked | `== null`, so that the prerequisite test runs | high, not executed | `CourseAnalysis.AsWrittenIgnoresPrerequisites` | `CourseAnalysis.ProcessUnlockedCourses` |
| Services/Portal/CourseAnalysisService.cs:23 | `is Dictionary<string, string>` never matches the `Dictionary<string, object>` records the grade report stores | CSC1101 completed with "D": no retake entry | test the stored record type, so that a "D" is offered for retake | high, not executed | `CourseAnalysis.AsWrittenLosesRetakes` | `CourseAnalysis.RetakeUnlocked` |
| Services/Http/HttpClientWrapper.cs:206 | `cookies != null \|\| cookies?.Count == 0` returns false for every parsed list | any saved non-empty cookie list: nothing is restored | `cookies == null \|\| cookies.Count == 0` | high, not executed | `HttpClient.CookieJar.DeserializeCookies` | `HttpClient.CookieJar.RestoreCookies` |
| python/main_sse.py:275 | `course_map[course_code]` without a membership test | a completed "D" course missing from the curriculum: `KeyError` | skip it, as the app does with `ContainsKey` | medium, not executed | `PythonReference.MarkRetakes` | `CourseAnalysis.CollectRetakes` |

## Left out

- HTML parsing and selectors (HtmlAgilityPack XPath, BeautifulSoup `select`) are foreign
  libraries. The model takes the strings they yield as inputs, so row selection such as
  "third cell non-empty" and "skip the header row" happens before the model.
- HTTP transport is not modelled: posting, fetching, redirects, the cookie container's domain
  matching, and `requests.Session`. A login is modelled as the response page and final URL
  it yields, and a page fetch as a function from its query to the rows it yields.
- JSON serialisation and `SecureStorage` are foreign calls. Only the `Cookie` ↔ `CookieData`
  field mapping is modelled; a parsed JSON document is an input (`Err` for a parse
  exception, `None` for a null list).
- `HttpClient.CookieJar.RestoreCookies`: `CookieContainer.Add` is modelled as appending to a
  list. The container's replacement of a cookie with the same name, domain and path is not
  modelled.
- `HttpClient.Admitted` sums up the checks that make `new Cookie` and `CookieContainer.Add`
  throw: an empty or reserved name, an unquoted value containing ';' or ',', and an empty
  domain. The framework's other checks are not modelled: domain syntax and host matching,
  path, port, and length limits.
- `Cookie.Expires` is a tick count (`int`). `DateTime` ranges and kinds are not modelled.
- Concurrency is not modelled (`Task.WhenAll`, async/await). The three readers run one after
  the other, which gives the same result because they share no state.
- Python `parse_time`, `process_semester` and `process_curriculum` use `datetime.strptime`
  and list sorting over the same inputs as the app's code. The app's versions are modelled.
  Python's sorting of the semester routine by name is not modelled.
- `Text.TitleCase` models `TextInfo.ToTitleCase` on ASCII text that has no upper-case
  letters. This is what both callers pass, because they lower-case first. On other text .NET
  keeps a word written all in capitals as it is; that rule is not modelled. Culture-specific
  casing is not modelled either.
- `PythonReference.PyUserName`: the case of each letter of Python's `title()` follows
  `PythonReference.Title`, which is not tied to a general property. Only the letters-up-to-case
  agreement and `PyUserNameAgrees` are stated.
- White space, digits and letters are ASCII. Unicode white space trimmed by `String.Trim`
  and `str.strip` is not modelled.
- The web-server endpoints, Redis, web push and SSE framing of the Python server are not
  modelled. Only their decision checks are: `event_stream`'s login checks and
  `push_notification`'s validation.
- `PortalService.LoginAsync`: the student-page fetch and `GetStudentDataAsync` are an input
  that either yields data or an exception message. The log output is not modelled.
- UI is not modelled: animations, navigation, alerts, colours, the captcha page, the main
  page, the start-page choice, and the rest of the login page.
- `IAIUBPortalService` is only an interface signature and adds nothing to model.
