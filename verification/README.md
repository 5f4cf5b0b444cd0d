# Moodle MCP bridge: resolver, request shaping and tool workflows

This project models the core of a Kotlin server that gives a tool-calling assistant three tools over a university Moodle site:

- `get_assignments` lists the assignments of a course;
- `get_submission_status` reports the state of one assignment's submission;
- `submit` uploads a local file to an assignment and saves it as the submission.

The model covers three pieces of logic.

- **Name resolution** (`Resolver`, `Text`). A free-text course or assignment name is matched by case-insensitive substring search, and the first hit in listing order wins. A course matches on its full, short or display name. An assignment matches on its name only, searched over the assignments of every returned course, flattened in order.
- **Request shaping** (`ApiRequests`, `Decimal`). Each web-service operation becomes an ordered list of form fields: the control fields, then the operation's own fields, then the three standard settings. The upload becomes an ordered multipart form. A decoder reads every request back into the token and call it was built from, which proves the shaping loses and confuses nothing. The save response body counts as "no warnings" only when its trimmed text is `[]`.
- **The tool handlers** (`Tools`, with `Client`, `ToolResults` and `ClientUtil`). The remote site is an oracle, `Server.respond(history, call)`, that answers each call knowing every call made before it. Each handler is a pure function from the oracle, the cached user id, the tool arguments and (for `submit`) the local file system to an outcome and the exact list of client calls it made. Ordering and absence properties are stated over that call list: no call before validation passes, no upload unless the status allows it and the file can be read, no save after an empty upload, five calls in protocol order on success. The `MoodleApiClientUtil` helpers, which the handlers do not call, are modelled separately in `ClientUtil`.

A reply of the wrong shape stands for a JSON decoding failure. Like a transport fault, it is an exception, and every handler turns an exception into the outcome `Failed(Caught)`.

The three handlers search one course listing per lookup and take their candidate lists from that same listing. The helper `findAndValidateCourse`, which they do not call, fetches the listing a second time when nothing matches and lists the candidates of the second listing (see Findings).

## Model

| member | source | states |
|---|---|---|
| `Text.IndexOfIgnoringCase` | src/main/kotlin/moodle/MoodleApiClientUtil.kt:65-67 | the scan returns the first offset at or after `from` where the query matches ignoring case; it returns none exactly when no offset matches |
| `Text.ContainsIffIndexFound` | src/main/kotlin/moodle/MoodleApiClientUtil.kt:65-67 | `contains(ignoreCase = true)` holds exactly when the index scan from offset 0 finds an offset |
| `Text.EmptyNeedleFound` | src/main/kotlin/moodle/MoodleApiClientUtil.kt:65-67 | the empty query occurs in every string, at offset 0 |
| `Text.ContainsItself` | src/main/kotlin/moodle/MoodleApiClientUtil.kt:81 | a name always matches a query equal to itself |
| `Text.CaseOfQueryIrrelevant` | src/main/kotlin/moodle/MoodleApiClientUtil.kt:65-67 | upper-casing the query never changes whether a name matches |
| `Text.Trim` | src/main/kotlin/moodle/MoodleApiClient.kt:203 | the trimmed text neither starts nor ends with whitespace; it is empty exactly when the body is all whitespace |
| `Text.TrimRemovesOnlyWhitespace` | src/main/kotlin/moodle/MoodleApiClient.kt:203 | every string is whitespace, then its trimmed text, then whitespace |
| `Text.TrimOfPadded` | src/main/kotlin/moodle/MoodleApiClient.kt:203 | padding a core that has no whitespace at its ends with whitespace on both sides trims back to that core |
| `Text.TrimByScan` | src/main/kotlin/moodle/MoodleApiClient.kt:203 | the scanning loop, which advances the start and then retreats the end, computes exactly `Trim` |
| `Decimal.IntText` | src/main/kotlin/moodle/MoodleApiClient.kt:107-108 | an integer's text is non-empty, and it is all digits exactly when the integer is not negative |
| `Decimal.NatTextRoundTrip` | src/main/kotlin/moodle/MoodleApiClient.kt:107-108 | parsing a natural number's digit text gives the number back |
| `Decimal.IntTextRoundTrip` | src/main/kotlin/moodle/MoodleApiClient.kt:107-108 | parsing `Int.toString()` of any integer, negative ones included, gives the integer back |
| `Decimal.IntTextInjective` | src/main/kotlin/moodle/MoodleApiClient.kt:130-132 | two integers have the same text exactly when they are equal, so `courseids[i]` keys never collide |
| `Resolver.FirstCourseFrom` | src/main/kotlin/moodle/MoodleApiClientUtil.kt:64-68 | the index found matches the three-field predicate and no earlier course matches; none is found exactly when no course from `from` on matches |
| `Resolver.CourseMatches` | src/main/kotlin/moodle/MoodleApiClientUtil.kt:64-68 | the empty query matches every course, and a course matches only a query no longer than its full, short or display name |
| `Resolver.FindCourse` | src/main/kotlin/moodle/MoodleApiClientUtil.kt:62-69 | the result is null exactly when no course matches on full, short or display name; otherwise it is the first matching course in listing order |
| `Resolver.FullNames` | src/main/kotlin/moodle/MoodleApiClientUtil.kt:23 | the candidates offered are the full names of every course, one per course, in listing order |
| `Resolver.FirstAssignmentFrom` | src/main/kotlin/moodle/MoodleApiClientUtil.kt:80-82 | the index found matches on the name and no earlier assignment matches; none is found exactly when nothing from `from` on matches |
| `Resolver.AssignmentMatches` | src/main/kotlin/moodle/MoodleApiClientUtil.kt:80-82 | the empty query matches every assignment, and an assignment matches only a query no longer than its name |
| `Resolver.FindAssignment` | src/main/kotlin/moodle/MoodleApiClientUtil.kt:74-83 | the result is null exactly when no assignment of the flattened listing matches on its name; otherwise it is the first match |
| `Resolver.AssignmentNames` | src/main/kotlin/moodle/MoodleApiClientUtil.kt:47-48 | the candidates offered are the names of every assignment, one per assignment, in flattened order |
| `Resolver.FlattenAppend` | src/main/kotlin/moodle/MoodleApiClientUtil.kt:78-79 | flattening distributes over the concatenation of course lists |
| `Resolver.FlattenMembership` | src/main/kotlin/moodle/MoodleApiClientUtil.kt:78-79 | an assignment is in the flattened listing exactly when some course lists it |
| `Resolver.Flatten` | src/main/kotlin/moodle/MoodleApiClientUtil.kt:78-79 | the flattened listing has as many entries as all courses together, and it starts with the first course's assignments, in order |
| `Resolver.FindAssignmentNoneIff` | src/main/kotlin/moodle/MoodleApiClientUtil.kt:74-83 | no assignment is found exactly when no assignment of any returned course has a matching name |
| `Resolver.EmptyQueryPicksFirstCourse` | src/main/kotlin/moodle/MoodleApiClientUtil.kt:65-67 | an empty query selects the first course of a non-empty listing |
| `Resolver.EmptyQueryPicksFirstAssignment` | src/main/kotlin/moodle/MoodleApiClientUtil.kt:81 | an empty query selects the first assignment of a non-empty flattened listing |
| `Resolver.EarlierCourseWins` | src/main/kotlin/moodle/MoodleApiClientUtil.kt:64-68 | if course `i` matches, some course is found, and it sits at position `i` or earlier |
| `Resolver.ShortNameScenario` | src/main/kotlin/moodle/MoodleApiClientUtil.kt:66 | a course is found through its short name even when its full name does not contain the query |
| `Resolver.MidtermScenario` | src/main/kotlin/moodle/MoodleApiClientUtil.kt:78-82 | "midterm" selects "Midterm Report" ahead of "Final Report" |
| `ApiRequests.BaseParameters` | src/main/kotlin/moodle/MoodleApiClient.kt:46-52 | the control fields are exactly `moodlewsrestformat`, `wsfunction` and `wstoken`, in that order, carrying `json`, the function name and the token |
| `ApiRequests.StandardSettings` | src/main/kotlin/moodle/MoodleApiClient.kt:61-69 | the settings are exactly filter, file-URL and language, in that order; each flag reads "true" exactly when it is set, and the language is sent unchanged |
| `ApiRequests.ApiCallParams` | src/main/kotlin/moodle/MoodleApiClient.kt:80-90 | a form has six fields besides the operation's own: the control fields first, the operation's fields unchanged in the middle, the settings with `ja` last |
| `ApiRequests.SpecificParams` | src/main/kotlin/moodle/MoodleApiClient.kt:105-149 | site info alone has no fields of its own; the course listing sends `userid` then `returnusercount`; the assignments send one field per course id, then `includenotenrolledcourses`; status and save lead with their id and add one field exactly when the optional id is given |
| `ApiRequests.Encode` | src/main/kotlin/moodle/MoodleApiClient.kt:80-170 | every call becomes a form post to the REST endpoint, except the upload, which becomes a multipart post to the upload endpoint; a form carries six fields besides the operation's own |
| `ApiRequests.CourseIdParamsRoundTrip` | src/main/kotlin/moodle/MoodleApiClient.kt:130-132 | the indexed `courseids[i]` entries read back as the id list they were built from |
| `ApiRequests.AssignmentsRoundTrip` | src/main/kotlin/moodle/MoodleApiClient.kt:128-135 | the fields of `getAssignments` read back as the same course ids and flag |
| `ApiRequests.StatusRoundTrip` | src/main/kotlin/moodle/MoodleApiClient.kt:144-149 | the fields of `getSubmissionStatus` read back as the same assignment id and optional user id |
| `ApiRequests.SaveRoundTrip` | src/main/kotlin/moodle/MoodleApiClient.kt:191-196 | the fields of `saveSubmission` read back as the same assignment id and optional file-manager id |
| `ApiRequests.SpecificRoundTrip` | src/main/kotlin/moodle/MoodleApiClient.kt:105-149 | for every form operation, the function name and the operation's own fields determine the call |
| `ApiRequests.EncodeDecodeRoundTrip` | src/main/kotlin/moodle/MoodleApiClient.kt:80-96 | every request the client builds, form or multipart, reads back as exactly the token and call it came from |
| `ApiRequests.EncodeInjective` | src/main/kotlin/moodle/MoodleApiClient.kt:80-96 | two different calls, or two different tokens, never produce the same request |
| `ApiRequests.FormLayout` | src/main/kotlin/moodle/MoodleApiClient.kt:86-89 | a form request goes to the REST endpoint as `moodlewsrestformat=json`, `wsfunction`, `wstoken`, then the operation's fields, then filter, file-URL and `moodlewssettinglang=ja`; the settings are never omitted |
| `ApiRequests.SettingsValues` | src/main/kotlin/moodle/MoodleApiClient.kt:105-149 | site info and submission status send filter and file-URL as "false"; every other form operation sends "true" |
| `ApiRequests.CourseIdsIndexed` | src/main/kotlin/moodle/MoodleApiClient.kt:128-134 | `courseids[i]` carries the i-th id, in order, right after the control fields, followed by `includenotenrolledcourses` |
| `ApiRequests.CourseIdParams` | src/main/kotlin/moodle/MoodleApiClient.kt:130-132 | one field per id: field `i` is keyed `courseids[from + i]` and carries the i-th id |
| `ApiRequests.UserIdPresentIffGiven` | src/main/kotlin/moodle/MoodleApiClient.kt:147 | a submission-status request has a `userid` field exactly when a user id is given |
| `ApiRequests.FileManagerPresentIffGiven` | src/main/kotlin/moodle/MoodleApiClient.kt:194 | a save request has a `plugindata[files_filemanager]` field exactly when a file-manager id is given |
| `ApiRequests.SaveSubmissionLayout` | src/main/kotlin/moodle/MoodleApiClient.kt:192-196 | a save request is the control fields, `assignmentid`, the optional file-manager id, then the settings true, true, ja |
| `ApiRequests.UploadLayout` | src/main/kotlin/moodle/MoodleApiClient.kt:161-168 | an upload goes to the upload endpoint as `token`, `filearea=draft`, `itemid=0`, then the file part holding the content |
| `ApiRequests.ClassifySaveBody` | src/main/kotlin/moodle/MoodleApiClient.kt:203-207 | a save body yields either no warnings or one warning, which is the untrimmed body |
| `ApiRequests.NoWarningsIffBracketsOnly` | src/main/kotlin/moodle/MoodleApiClient.kt:203-207 | a body yields no warnings exactly when it is `[]` with only whitespace around it |
| `ApiRequests.SaveBodyExamples` | src/main/kotlin/moodle/MoodleApiClient.kt:203-207 | `" []\n"` is clean; `"[ ]"` and the empty body are each returned as a warning |
| `Client.AsUserInfo` | src/main/kotlin/moodle/MoodleApiClient.kt:117-119 | site info returns exactly when the reply is a site-info record, and then that record; any other reply throws |
| `Client.AsCourses` | src/main/kotlin/moodle/MoodleApiClient.kt:105-110 | the course listing returns exactly when the reply is a course list, and then that list; any other reply throws |
| `Client.AsAssignments` | src/main/kotlin/moodle/MoodleApiClient.kt:128-136 | the assignment listing returns exactly when the reply is an assignment response, and then that response; any other reply throws |
| `Client.AsStatus` | src/main/kotlin/moodle/MoodleApiClient.kt:144-149 | the status returns exactly when the reply is a status record, and then that record; any other reply throws |
| `Client.AsUploaded` | src/main/kotlin/moodle/MoodleApiClient.kt:158-182 | the upload returns exactly when the reply decodes as a list of uploaded files, and then that list; any other reply throws |
| `Client.AsSaveResult` | src/main/kotlin/moodle/MoodleApiClient.kt:198-207 | a save returns whenever any body comes back, and only a transport fault throws; what it returns is the classification of that body |
| `ClientUtil.FindCourseByName` | src/main/kotlin/moodle/MoodleApiClientUtil.kt:62-69 | one `getUserCourses` call; the result is the first match in that listing, and the call throws when the listing does |
| `ClientUtil.FindAndValidateCourse` | src/main/kotlin/moodle/MoodleApiClientUtil.kt:10-32 | it returns exactly when the first listing returns and, if a second listing is made, that one returns too; then exactly one of (course, error) is present; a second `getUserCourses` is made exactly when the first listing has no match; the error's candidates are the full names of that second listing |
| `ClientUtil.FindAndValidateAssignment` | src/main/kotlin/moodle/MoodleApiClientUtil.kt:34-57 | exactly one `getAssignments([courseId])` call; exactly one of (assignment, error) is present; on a miss the candidates are every assignment name of that same response |
| `ClientUtil.RefetchCanOfferMatchingCourse` | src/main/kotlin/moodle/MoodleApiClientUtil.kt:15-28 | with a listing that grows between the two fetches, the helper reports "not found" yet offers a course that matches the query |
| `Tools.ReadArgs` | src/main/kotlin/McpNITechMoodleServer.kt:270-283 | reading arguments in order succeeds exactly when all are present primitives; otherwise the error is that of the first unreadable one, in order |
| `Tools.BaseName` | src/main/kotlin/McpNITechMoodleServer.kt:361 | the file name is the suffix of the path after its last `/` and contains no `/` |
| `Tools.ValidateSubmission` | src/main/kotlin/McpNITechMoodleServer.kt:270-297 | `submit` input is accepted exactly when all three arguments are readable and the path names a regular file; otherwise the error follows the source's order: course name, assignment name, path, missing file, not a file. Accepted input carries the file's bytes, or none when they cannot be read |
| `Tools.ResolveCourseStep` | src/main/kotlin/McpNITechMoodleServer.kt:303-322 | one course listing; success exactly when a course in it matches; on a miss the error lists that listing's full names, or none when candidates are not listed |
| `Tools.InlinedLookupOffersNoMatch` | src/main/kotlin/McpNITechMoodleServer.kt:312-322 | the inlined "not found" error lists the full names of the listing it searched, and none of those courses matches the query |
| `Tools.ResolveAssignmentStep` | src/main/kotlin/McpNITechMoodleServer.kt:325-349 | one `getAssignments([course.id])` call; success exactly when an assignment matches; on a miss the error lists every assignment name of that response |
| `Tools.ResolveTarget` | src/main/kotlin/McpNITechMoodleServer.kt:303-349 | the assignment listing is requested exactly when the course listing returned a match, and only for that course's id; the errors and the found pair follow from the two replies |
| `Tools.GetAssignmentsTool` | src/main/kotlin/McpNITechMoodleServer.kt:63-107 | no call is made exactly when `course_name` is unreadable; otherwise one course listing, then `getAssignments` only for a matching course; the outcome is that response, the not-found list, or the caught error |
| `Tools.FormatTimestamp` | src/main/kotlin/McpNITechMoodleServer.kt:425-432 | a timestamp reads "not set" exactly when it is zero or negative; otherwise the instant itself is shown |
| `Tools.SubmissionStatusText` | src/main/kotlin/McpNITechMoodleServer.kt:437-445 | each of the four known codes maps to its label, and any other status is shown unchanged |
| `Tools.GradingStatusText` | src/main/kotlin/McpNITechMoodleServer.kt:450-457 | each of the three known codes maps to its label, and any other status is shown unchanged |
| `Tools.SubmissionStatusLabelsDistinct` | src/main/kotlin/McpNITechMoodleServer.kt:437-445 | distinct known submission codes get distinct labels, and no label is itself a code |
| `Tools.SubmissionStatusTextNotInjective` | src/main/kotlin/McpNITechMoodleServer.kt:437-445 | an unknown status spelled like a label is shown exactly as the known code is |
| `Tools.GradingStatusLabelsDistinct` | src/main/kotlin/McpNITechMoodleServer.kt:450-457 | distinct known grading codes get distinct labels, and no label is itself a code |
| `Tools.Summarize` | src/main/kotlin/McpNITechMoodleServer.kt:192-222 | the report shows the submission line exactly when a submission exists, with the attempt shown as attemptnumber + 1; the created, modified and start times, and the extension date, are each `formatUnixTimestamp` of the reply's value, the start time and the extension only when present; the time limit only when positive |
| `Tools.GetSubmissionStatusTool` | src/main/kotlin/McpNITechMoodleServer.kt:129-241 | no call is made exactly when an argument is unreadable, and the first unreadable one is named. The calls follow the protocol. A thrown listing becomes the caught error, and an unknown course stops after the listing with no candidates named. The assignments are requested only for the course found, and an unknown assignment stops with every assignment name. The status is asked for the assignment found, for the caller, and the report summarises that reply; a thrown status becomes the caught error |
| `Tools.SubmitToAssignment` | src/main/kotlin/McpNITechMoodleServer.kt:351-394 | the upload happens exactly when the status reply allows submitting or editing and the file's bytes can be read; an unreadable file after an allowing status becomes the caught error. The save happens exactly when the upload returned a file, and it binds the first file's item id. Any save body completes the submission, and a thrown status, upload or save becomes the caught error |
| `Tools.SubmitTool` | src/main/kotlin/McpNITechMoodleServer.kt:267-402 | no client call is made exactly when validation fails, and the validation error is the outcome. The calls are always a prefix of the protocol: course listing, assignments, status, upload, save. An unknown course stops after the listing, and the error names every full name of it. The assignments are requested only for the course found, and an unknown assignment stops with every assignment name. The status is asked for the assignment found, and the upload happens exactly when that reply allows submitting or editing and the file's bytes can be read; an unreadable file then becomes the caught error. The save happens exactly when the upload returned a file, and it binds the first file's item id. Any save body completes the submission, with the warnings carried along. A completion report means all five calls were made |
| `Tools.Startup` | src/main/kotlin/McpNITechMoodleServer.kt:25-34 | startup makes exactly the site-info call; it succeeds exactly when that reply is a site-info record, and the identity it caches is that record |

## Left out

- HTTP transport, URL-encoding of forms and multipart framing are not modelled: a request is its ordered list of fields. The endpoints appear only as constants.
- JSON decoding (lenient, unknown keys ignored) is not modelled. Replies arrive already decoded, and a reply of the wrong shape stands for a decoding exception.
- The tool SDK, tool registration and input schemas, the stdio transport, the coroutine plumbing and the close-on-shutdown lifecycle are not modelled.
- The token comes from an environment variable in the source. Here it is a plain parameter of `ApiRequests.Encode`, and the process exit when it is missing is not modelled.
- Startup failure ends the process in the source. `Tools.Startup` only reports whether the identity fetch succeeded. The handlers take the cached user id as a parameter.
- The file system is a map from path to node. `exists` and `isFile` are lookups in it. `readBytes` yields the node's bytes, or throws for a regular file whose bytes cannot be read. `file.length()` is the length of the bytes read; a file changing between the read and the length query is not modelled.
- Tools.BaseName: models `File.name` as the text after the last `/`. It does not model the JVM's path normalisation, under which a trailing `/` is dropped before the name is taken.
- Tools.FormatTimestamp: models only the guard for zero and negative timestamps. Rendering the instant as `yyyy/MM/dd HH:mm` in Asia/Tokyo is date arithmetic in `java.time` and is not modelled.
- Text.SameIgnoringCase: case folding covers ASCII letters only. Kotlin's `contains(ignoreCase = true)` also folds non-ASCII letters.
- Tools.Summarize: the attempt count is `attemptnumber + 1` over unbounded integers. The 32-bit wrap-around at the largest `Int` is not modelled.
- The exact wording of result and error texts, the stack-trace strings and the "joined by `, `" rendering are not modelled. Outcomes keep the values the text is built from; candidate lists keep their order.
- The submission plugins and file areas listed at the end of the status report are not modelled. The status record has no fields for them.
- Fields of the decoded records that no modelled logic reads are not modelled.

## Findings

| source | as written | input that shows it | evidently intended | confidence | as-written member | corrected member |
|---|---|---|---|---|---|---|
| src/main/kotlin/moodle/MoodleApiClientUtil.kt:15-28 | when the first course listing has no match, `findAndValidateCourse` fetches the listing again and builds the candidate list from that second listing | user 7 and query "os"; the first listing is empty, the second holds a course with short name "OS"; the result is "not found" while offering "Operating Systems", which matches "os" | the candidates come from the listing that was searched, with one listing call per lookup, as the inlined handler code does (`Tools.ResolveCourseStep`) | low, not executed | `ClientUtil.RefetchCanOfferMatchingCourse` | `Tools.InlinedLookupOffersNoMatch` |
