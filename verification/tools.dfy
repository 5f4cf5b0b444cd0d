/**
 * The three tool handlers of the server (`get_assignments`,
 * `get_submission_status`, `submit`) as sequential workflows over the client
 * oracle, plus the startup identity fetch and the small label mappings.
 *
 * Each handler reads its arguments, resolves the course and assignment with
 * the lookups it inlines (one course listing, one assignment listing), and
 * acts. Every exception inside a handler is caught and becomes `Failed(Caught)`.
 */
module Tools {
  import opened Common
  import opened Domain
  import opened ApiRequests
  import opened Client
  import opened Resolver
  import opened ToolResults

  // ---------------------------------------------------------------------------
  // Inputs
  // ---------------------------------------------------------------------------

  /**
   * A tool argument as the handler sees it: a JSON primitive has a text content
   * (`null` reads as the text "null"), while an object or array makes
   * `jsonPrimitive` throw.
   */
  datatype Arg = Primitive(content: string) | Structured

  type Args = map<string, Arg>

  /**
   * The local file system as the submit handler queries it: absent paths do not
   * exist. A regular file whose bytes cannot be read (no read permission, or
   * removed after the checks) has no `content`: `readBytes` throws on it.
   */
  datatype Node = RegularFile(content: Option<seq<byte>>) | OtherNode

  type FileSystem = map<string, Node>

  const CourseNameArg: string := "course_name"
  const AssignmentNameArg: string := "assignment_name"
  const FilePathArg: string := "submit_file_path"

  predicate Readable(args: Args, name: string) {
    name in args && args[name].Primitive?
  }

  /** The error the handler returns for an unreadable argument: a missing one is named; a structured one throws. */
  function ArgError(args: Args, name: string): ToolError {
    if name in args then Caught else MissingParameter(name)
  }

  /** Reads the named arguments in order, stopping at the first that is missing or not a primitive. */
  function ReadArgs(args: Args, names: seq<string>, from: nat): (r: Result<seq<string>, ToolError>)
    requires from <= |names|
    ensures r.Success? <==> forall i :: from <= i < |names| ==> Readable(args, names[i])
    ensures r.Success? ==>
      && |r.value| == |names| - from
      && forall i :: from <= i < |names| ==> args[names[i]] == Primitive(r.value[i - from])
    ensures r.Failure? ==>
      exists i :: && from <= i < |names|
                  && !Readable(args, names[i])
                  && (forall j :: from <= j < i ==> Readable(args, names[j]))
                  && r.error == ArgError(args, names[i])
    decreases |names| - from
  {
    if from == |names| then Success([])
    else if !Readable(args, names[from]) then Failure(ArgError(args, names[from]))
    else match ReadArgs(args, names, from + 1)
      case Failure(e) => Failure(e)
      case Success(rest) => Success([args[names[from]].content] + rest)
  }

  /** `File(path).name`: the part of the path after its last `/`. */
  function BaseName(path: string): (name: string)
    ensures '/' !in name
    ensures |name| <= |path| && name == path[|path| - |name|..]
    ensures |name| < |path| ==> path[|path| - |name| - 1] == '/'
    decreases |path|
  {
    if |path| == 0 || path[|path| - 1] == '/' then ""
    else BaseName(path[..|path| - 1]) + [path[|path| - 1]]
  }

  datatype SubmitInput = SubmitInput(
    courseName: string,
    assignmentName: string,
    path: string,
    fileName: string,
    content: Option<seq<byte>>)


  /** The checks `submit` makes before touching the client: three arguments in order, then existence, then "is a regular file". */
  function ValidateSubmission(args: Args, fs: FileSystem): (r: Result<SubmitInput, ToolError>)
    ensures r.Success? <==>
      && Readable(args, CourseNameArg) && Readable(args, AssignmentNameArg) && Readable(args, FilePathArg)
      && args[FilePathArg].content in fs && fs[args[FilePathArg].content].RegularFile?
    ensures r.Success? ==>
      && r.value.courseName == args[CourseNameArg].content
      && r.value.assignmentName == args[AssignmentNameArg].content
      && r.value.path == args[FilePathArg].content
      && fs[r.value.path] == RegularFile(r.value.content)
      && r.value.fileName == BaseName(r.value.path)
    ensures r.Failure? ==>
      r.error == (if !Readable(args, CourseNameArg) then ArgError(args, CourseNameArg)
                  else if !Readable(args, AssignmentNameArg) then ArgError(args, AssignmentNameArg)
                  else if !Readable(args, FilePathArg) then ArgError(args, FilePathArg)
                  else if args[FilePathArg].content !in fs then FileNotFound(args[FilePathArg].content)
                  else NotAFile(args[FilePathArg].content))
  {
    var names := [CourseNameArg, AssignmentNameArg, FilePathArg];
    assert names[0] == CourseNameArg && names[1] == AssignmentNameArg && names[2] == FilePathArg;
    match ReadArgs(args, names, 0)
    case Failure(e) => Failure(e)
    case Success(v) =>
      var path := v[2];
      if path !in fs then Failure(FileNotFound(path))
      else if fs[path].OtherNode? then Failure(NotAFile(path))
      else Success(SubmitInput(v[0], v[1], path, BaseName(path), fs[path].content))
  }

  // ---------------------------------------------------------------------------
  // Stages shared by the handlers
  // ---------------------------------------------------------------------------

  /**
   * The calls are a prefix of the submit protocol (course listing, assignment
   * listing, submission status, upload, save): nothing skipped, repeated or reordered.
   */
  predicate FollowsProtocol(calls: seq<Call>) {
    && |calls| <= 5
    && (|calls| > 0 ==> calls[0].GetUserCourses?)
    && (|calls| > 1 ==> calls[1].GetAssignments?)
    && (|calls| > 2 ==> calls[2].GetSubmissionStatus?)
    && (|calls| > 3 ==> calls[3].UploadFile?)
    && (|calls| > 4 ==> calls[4].SaveSubmission?)
  }

  /** The two lookups followed by the submission proper follow the protocol. */
  lemma ProtocolAppend(lookups: seq<Call>, rest: seq<Call>)
    requires |lookups| == 2 && lookups[0].GetUserCourses? && lookups[1].GetAssignments?
    requires 1 <= |rest| <= 3 && rest[0].GetSubmissionStatus?
    requires |rest| > 1 ==> rest[1].UploadFile?
    requires |rest| > 2 ==> rest[2].SaveSubmission?
    ensures FollowsProtocol(lookups + rest)
  {
    var all := lookups + rest;
    assert all[2] == rest[0];
    assert |rest| > 1 ==> all[3] == rest[1];
    assert |rest| > 2 ==> all[4] == rest[2];
  }

  /** The reply to the course listing, the first call of every handler that reaches the client. */
  function ListingOf(srv: Server, history: seq<Call>, userId: int): Attempt<seq<Course>> {
    AsCourses(srv.respond(history, GetUserCourses(userId, 0)))
  }

  /** The inlined course lookup: one listing; on a miss, the full names of that listing when `listCandidates`. */
  function ResolveCourseStep(srv: Server, history: seq<Call>, userId: int, query: string, listCandidates: bool)
    : (s: Step<Course>)
    ensures s.calls == [GetUserCourses(userId, 0)]
    ensures var listing := ListingOf(srv, history, userId);
      && (s.result.Success? <==> listing.Returned? && FindCourse(listing.value, query).Some?)
      && (s.result.Success? ==> FindCourse(listing.value, query) == Some(s.result.value))
      && (listing.Threw? ==> s.result == Failure(Caught))
      && (listing.Returned? && s.result.Failure? ==>
            s.result.error == CourseNotFound(query, if listCandidates then Some(FullNames(listing.value)) else None))
  {
    match ListingOf(srv, history, userId)
    case Threw => Step(Failure(Caught), [GetUserCourses(userId, 0)])
    case Returned(courses) =>
      match FindCourse(courses, query)
      case Some(course) => Step(Success(course), [GetUserCourses(userId, 0)])
      case None =>
        Step(Failure(CourseNotFound(query, if listCandidates then Some(FullNames(courses)) else None)),
             [GetUserCourses(userId, 0)])
  }

  /**
   * Because the inlined lookup lists the candidates of the very listing it
   * searched, a not-found result never offers a course that matches the query.
   */
  lemma InlinedLookupOffersNoMatch(srv: Server, history: seq<Call>, userId: int, query: string)
    ensures var s := ResolveCourseStep(srv, history, userId, query, true);
      s.result.Failure? && s.result.error.CourseNotFound? ==>
        && ListingOf(srv, history, userId).Returned?
        && var listing := ListingOf(srv, history, userId).value;
        && s.result.error.courses == Some(FullNames(listing))
        && forall i :: 0 <= i < |listing| ==> !CourseMatches(listing[i], query)
  {
  }

  /** The inlined assignment lookup: one listing for the course; on a miss, every assignment name of it. */
  function ResolveAssignmentStep(srv: Server, history: seq<Call>, courseId: int, query: string)
    : (s: Step<Assignment>)
    ensures s.calls == [GetAssignments([courseId], 1)]
    ensures var response := AsAssignments(srv.respond(history, GetAssignments([courseId], 1)));
      && (s.result.Success? <==> response.Returned? && FindAssignment(response.value, query).Some?)
      && (s.result.Success? ==> FindAssignment(response.value, query) == Some(s.result.value))
      && (response.Threw? ==> s.result == Failure(Caught))
      && (response.Returned? && s.result.Failure? ==>
            s.result.error == AssignmentNotFound(query, AssignmentNames(Flatten(response.value.courses))))
  {
    var call := GetAssignments([courseId], 1);
    match AsAssignments(srv.respond(history, call))
    case Threw => Step(Failure(Caught), [call])
    case Returned(response) =>
      match FindAssignment(response, query)
      case Some(a) => Step(Success(a), [call])
      case None => Step(Failure(AssignmentNotFound(query, AssignmentNames(Flatten(response.courses)))), [call])
  }

  /**
   * Both lookups of the status and submit handlers: the course listing, then,
   * only when a course matched, the assignments of that course alone.
   */
  function ResolveTarget(srv: Server, history: seq<Call>, userId: int, courseQuery: string, assignmentQuery: string,
                         listCandidates: bool): (s: Step<(Course, Assignment)>)
    ensures 1 <= |s.calls| <= 2
    ensures s.calls[0] == GetUserCourses(userId, 0)
    ensures var listing := ListingOf(srv, history, userId);
      && (|s.calls| == 2 <==> listing.Returned? && FindCourse(listing.value, courseQuery).Some?)
      && (listing.Threw? ==> s.result == Failure(Caught))
      && (|s.calls| == 1 && listing.Returned? ==>
            s.result == Failure(CourseNotFound(courseQuery, if listCandidates then Some(FullNames(listing.value)) else None)))
    ensures |s.calls| == 2 ==>
      var course := FindCourse(ListingOf(srv, history, userId).value, courseQuery).value;
      var response := AsAssignments(srv.respond(history + [s.calls[0]], s.calls[1]));
      && s.calls[1] == GetAssignments([course.id], 1)
      && (s.result.Success? <==> response.Returned? && FindAssignment(response.value, assignmentQuery).Some?)
      && (s.result.Success? ==> s.result.value == (course, FindAssignment(response.value, assignmentQuery).value))
      && (response.Threw? ==> s.result == Failure(Caught))
      && (response.Returned? && s.result.Failure? ==>
            s.result.error == AssignmentNotFound(assignmentQuery, AssignmentNames(Flatten(response.value.courses))))
    ensures s.result.Success? ==> |s.calls| == 2
  {
    var s1 := ResolveCourseStep(srv, history, userId, courseQuery, listCandidates);
    match s1.result
    case Failure(e) => Step(Failure(e), s1.calls)
    case Success(course) =>
      var s2 := ResolveAssignmentStep(srv, history + s1.calls, course.id, assignmentQuery);
      match s2.result
      case Failure(e) => Step(Failure(e), s1.calls + s2.calls)
      case Success(a) => Step(Success((course, a)), s1.calls + s2.calls)
  }

  // ---------------------------------------------------------------------------
  // get_assignments
  // ---------------------------------------------------------------------------

  function GetAssignmentsTool(srv: Server, userId: int, args: Args, history: seq<Call>): (run: Run)
    ensures run.calls == [] <==> !Readable(args, CourseNameArg)
    ensures !Readable(args, CourseNameArg) ==> run.outcome == Failed(ArgError(args, CourseNameArg))
    ensures |run.calls| <= 2 && FollowsProtocol(run.calls)
    ensures Readable(args, CourseNameArg) ==>
      var listing := ListingOf(srv, history, userId);
      var query := args[CourseNameArg].content;
      && run.calls[0] == GetUserCourses(userId, 0)
      && (|run.calls| == 2 <==> listing.Returned? && FindCourse(listing.value, query).Some?)
      && (listing.Threw? ==> run.outcome == Failed(Caught))
      && (|run.calls| == 1 && listing.Returned? ==>
            run.outcome == Failed(CourseNotFound(query, Some(FullNames(listing.value)))))
    ensures |run.calls| == 2 ==>
      var course := FindCourse(ListingOf(srv, history, userId).value, args[CourseNameArg].content).value;
      var response := AsAssignments(srv.respond(history + [run.calls[0]], run.calls[1]));
      && run.calls[1] == GetAssignments([course.id], 1)
      && (response.Returned? ==> run.outcome == AssignmentList(response.value))
      && (response.Threw? ==> run.outcome == Failed(Caught))
  {
    if !Readable(args, CourseNameArg) then Run(Failed(ArgError(args, CourseNameArg)), [])
    else
      var s1 := ResolveCourseStep(srv, history, userId, args[CourseNameArg].content, true);
      match s1.result
      case Failure(e) => Run(Failed(e), s1.calls)
      case Success(course) =>
        var call := GetAssignments([course.id], 1);
        match AsAssignments(srv.respond(history + s1.calls, call))
        case Threw => Run(Failed(Caught), s1.calls + [call])
        case Returned(response) => Run(AssignmentList(response), s1.calls + [call])
  }

  // ---------------------------------------------------------------------------
  // get_submission_status
  // ---------------------------------------------------------------------------

  /** `formatUnixTimestamp`: zero and negative timestamps read "not set". */
  function FormatTimestamp(t: int): (r: TimeText)
    ensures r == NotSet <==> t <= 0
    ensures r.At? ==> r.epochSeconds == t
  {
    if t <= 0 then NotSet else At(t)
  }

  const SubmissionStatusCodes: seq<string> := ["new", "draft", "submitted", "reopened"]
  const SubmissionStatusLabels: seq<string> := ["未提出", "下書き", "提出済み", "再開"]

  /** `getSubmissionStatusText`: the four known codes get Japanese labels; any other text is shown as is. */
  function SubmissionStatusText(status: string): (shown: string)
    ensures status !in SubmissionStatusCodes ==> shown == status
    ensures forall i :: 0 <= i < |SubmissionStatusCodes| && status == SubmissionStatusCodes[i] ==>
      shown == SubmissionStatusLabels[i]
  {
    if status == "new" then "未提出"
    else if status == "draft" then "下書き"
    else if status == "submitted" then "提出済み"
    else if status == "reopened" then "再開"
    else status
  }

  const GradingStatusCodes: seq<string> := ["notgraded", "graded", "released"]
  const GradingStatusLabels: seq<string> := ["未採点", "採点済み", "公開済み"]

  /** `getGradingStatusText`: the three known codes get Japanese labels; any other text is shown as is. */
  function GradingStatusText(status: string): (shown: string)
    ensures status !in GradingStatusCodes ==> shown == status
    ensures forall i :: 0 <= i < |GradingStatusCodes| && status == GradingStatusCodes[i] ==>
      shown == GradingStatusLabels[i]
  {
    if status == "notgraded" then "未採点"
    else if status == "graded" then "採点済み"
    else if status == "released" then "公開済み"
    else status
  }

  /** Distinct known submission codes get distinct labels, and no label is itself a code. */
  lemma SubmissionStatusLabelsDistinct()
    ensures forall i, j :: 0 <= i < j < |SubmissionStatusCodes| ==>
      SubmissionStatusText(SubmissionStatusCodes[i]) != SubmissionStatusText(SubmissionStatusCodes[j])
    ensures forall i :: 0 <= i < |SubmissionStatusLabels| ==> SubmissionStatusLabels[i] !in SubmissionStatusCodes
  {
    forall i, j | 0 <= i < j < |SubmissionStatusCodes|
      ensures SubmissionStatusText(SubmissionStatusCodes[i]) != SubmissionStatusText(SubmissionStatusCodes[j])
    {
      assert SubmissionStatusText(SubmissionStatusCodes[i]) == SubmissionStatusLabels[i];
      assert SubmissionStatusText(SubmissionStatusCodes[j]) == SubmissionStatusLabels[j];
    }
  }

  /**
   * An unknown status is shown verbatim, so a server that reported a status
   * spelled like a label would be indistinguishable from the known code.
   */
  lemma SubmissionStatusTextNotInjective()
    ensures SubmissionStatusText("未提出") == SubmissionStatusText("new")
  {
    assert "未提出" !in SubmissionStatusCodes;
  }

  /** Distinct known grading codes get distinct labels, and no label is itself a code. */
  lemma GradingStatusLabelsDistinct()
    ensures forall i, j :: 0 <= i < j < |GradingStatusCodes| ==>
      GradingStatusText(GradingStatusCodes[i]) != GradingStatusText(GradingStatusCodes[j])
    ensures forall i :: 0 <= i < |GradingStatusLabels| ==> GradingStatusLabels[i] !in GradingStatusCodes
  {
    forall i, j | 0 <= i < j < |GradingStatusCodes|
      ensures GradingStatusText(GradingStatusCodes[i]) != GradingStatusText(GradingStatusCodes[j])
    {
      assert GradingStatusText(GradingStatusCodes[i]) == GradingStatusLabels[i];
      assert GradingStatusText(GradingStatusCodes[j]) == GradingStatusLabels[j];
    }
  }

  /** The facts the status report is built from. */
  function Summarize(assignmentName: string, status: SubmissionStatusResponse): (s: StatusSummary)
    ensures s.assignmentName == assignmentName
    ensures var last := status.lastattempt;
      && (s.submission.Some? <==> last.submission.Some?)
      && (s.submission.Some? ==>
            var sub := last.submission.value;
            var line := s.submission.value;
            && line.id == sub.id
            && line.statusLabel == SubmissionStatusText(sub.status)
            && line.attemptCount == sub.attemptnumber + 1
            && line.created == FormatTimestamp(sub.timecreated)
            && line.modified == FormatTimestamp(sub.timemodified)
            && (line.started.Some? <==> sub.timestarted.Some?)
            && (line.started.Some? ==> line.started.value == FormatTimestamp(sub.timestarted.value)))
      && s.submissionsEnabled == last.submissionsenabled
      && s.locked == last.locked
      && s.graded == last.graded
      && s.gradingLabel == GradingStatusText(last.gradingstatus)
      && (s.extension.Some? <==> last.extensionduedate.Some?)
      && (s.extension.Some? ==> s.extension.value == FormatTimestamp(last.extensionduedate.value))
      && (s.timeLimitSeconds.Some? <==> last.timelimit > 0)
      && (s.timeLimitSeconds.Some? ==> s.timeLimitSeconds.value == last.timelimit)
  {
    var last := status.lastattempt;
    StatusSummary(
      assignmentName,
      match last.submission
      case None => None
      case Some(sub) => Some(SubmissionLine(
        sub.id,
        SubmissionStatusText(sub.status),
        sub.attemptnumber + 1,
        FormatTimestamp(sub.timecreated),
        FormatTimestamp(sub.timemodified),
        match sub.timestarted
        case None => None
        case Some(t) => Some(FormatTimestamp(t)))),
      last.submissionsenabled,
      last.locked,
      GradingStatusText(last.gradingstatus),
      last.graded,
      match last.extensionduedate
      case None => None
      case Some(t) => Some(FormatTimestamp(t)),
      if last.timelimit > 0 then Some(last.timelimit) else None)
  }

  function GetSubmissionStatusTool(srv: Server, userId: int, args: Args, history: seq<Call>): (run: Run)
    ensures run.calls == [] <==> !(Readable(args, CourseNameArg) && Readable(args, AssignmentNameArg))
    ensures !Readable(args, CourseNameArg) ==> run.outcome == Failed(ArgError(args, CourseNameArg))
    ensures Readable(args, CourseNameArg) && !Readable(args, AssignmentNameArg) ==>
      run.outcome == Failed(ArgError(args, AssignmentNameArg))
    ensures |run.calls| <= 3 && FollowsProtocol(run.calls)
    // the course listing; a miss names no candidates
    ensures Readable(args, CourseNameArg) && Readable(args, AssignmentNameArg) ==>
      var query := args[CourseNameArg].content;
      var listing := ListingOf(srv, history, userId);
      && run.calls[0] == GetUserCourses(userId, 0)
      && (|run.calls| >= 2 <==> listing.Returned? && FindCourse(listing.value, query).Some?)
      && (listing.Threw? ==> run.outcome == Failed(Caught))
      && (listing.Returned? && FindCourse(listing.value, query).None? ==>
            run.outcome == Failed(CourseNotFound(query, None)))
    // the assignments of the course found, and only of it
    ensures |run.calls| >= 2 ==>
      var query := args[AssignmentNameArg].content;
      var course := FindCourse(ListingOf(srv, history, userId).value, args[CourseNameArg].content).value;
      var response := AsAssignments(ReplyTo(srv, history, run.calls, 1));
      && run.calls[1] == GetAssignments([course.id], 1)
      && (|run.calls| == 3 <==> response.Returned? && FindAssignment(response.value, query).Some?)
      && (response.Threw? ==> run.outcome == Failed(Caught))
      && (response.Returned? && FindAssignment(response.value, query).None? ==>
            run.outcome == Failed(AssignmentNotFound(query, AssignmentNames(Flatten(response.value.courses)))))
    // the status of the assignment found, queried for the caller, summarised
    ensures |run.calls| == 3 ==>
      var assignment := FindAssignment(AsAssignments(ReplyTo(srv, history, run.calls, 1)).value,
                                       args[AssignmentNameArg].content).value;
      var status := AsStatus(ReplyTo(srv, history, run.calls, 2));
      && run.calls[2] == GetSubmissionStatus(assignment.id, None)
      && (status.Returned? ==> run.outcome == StatusReport(Summarize(assignment.name, status.value)))
      && (status.Threw? ==> run.outcome == Failed(Caught))
    ensures run.outcome.StatusReport? ==> |run.calls| == 3
  {
    if !Readable(args, CourseNameArg) then Run(Failed(ArgError(args, CourseNameArg)), [])
    else if !Readable(args, AssignmentNameArg) then Run(Failed(ArgError(args, AssignmentNameArg)), [])
    else
      var t := ResolveTarget(srv, history, userId, args[CourseNameArg].content, args[AssignmentNameArg].content, false);
      LookupReplies(srv, history, t.calls);
      match t.result
      case Failure(e) => Run(Failed(e), t.calls)
      case Success(target) =>
        var call := GetSubmissionStatus(target.1.id, None);
        ReplyPrefix(srv, history, t.calls, [call], 0);
        ReplyPrefix(srv, history, t.calls, [call], 1);
        ReplyShift(srv, history, t.calls, [call], 0);
        assert history + t.calls + [call][..0] == history + t.calls;
        match AsStatus(srv.respond(history + t.calls, call))
        case Threw => Run(Failed(Caught), t.calls + [call])
        case Returned(status) => Run(StatusReport(Summarize(target.1.name, status)), t.calls + [call])
  }

  // ---------------------------------------------------------------------------
  // submit
  // ---------------------------------------------------------------------------

  /**
   * The submission proper, after both lookups: check that the attempt can be
   * submitted or edited, upload the file, bind the first returned item id, save.
   */
  function SubmitToAssignment(srv: Server, history: seq<Call>, input: SubmitInput, course: Course, assignment: Assignment)
    : (r: Run)
    ensures 1 <= |r.calls| <= 3
    ensures r.calls[0] == GetSubmissionStatus(assignment.id, None)
    ensures var status := AsStatus(ReplyTo(srv, history, r.calls, 0));
      var allowed := status.Returned? && (status.value.lastattempt.cansubmit || status.value.lastattempt.canedit);
      && (|r.calls| >= 2 <==> allowed && input.content.Some?)
      && (status.Threw? ==> r.outcome == Failed(Caught))
      && (status.Returned? && !allowed ==> r.outcome == Failed(SubmissionNotAllowed(assignment.name)))
      && (allowed && input.content.None? ==> r.outcome == Failed(Caught))
    ensures |r.calls| >= 2 ==>
      && input.content.Some?
      && r.calls[1] == UploadFile(input.content.value, input.fileName)
      && var uploaded := AsUploaded(ReplyTo(srv, history, r.calls, 1));
      && (|r.calls| == 3 <==> uploaded.Returned? && |uploaded.value| > 0)
      && (uploaded.Threw? ==> r.outcome == Failed(Caught))
      && (uploaded == Returned([]) ==> r.outcome == Failed(UploadFailed))
    ensures |r.calls| == 3 ==>
      var files := AsUploaded(ReplyTo(srv, history, r.calls, 1)).value;
      var saved := AsSaveResult(ReplyTo(srv, history, r.calls, 2));
      && r.calls[2] == SaveSubmission(assignment.id, Some(files[0].itemid))
      && (saved.Returned? ==>
            r.outcome == SubmitReport(course.fullname, assignment.name, input.fileName, |input.content.value|,
                                      files[0].itemid, saved.value))
      && (saved.Threw? ==> r.outcome == Failed(Caught))
    ensures r.outcome.SubmitReport? ==> |r.calls| == 3
  {
    var statusCall := GetSubmissionStatus(assignment.id, None);
    assert history + [statusCall][..0] == history;
    match AsStatus(srv.respond(history, statusCall))
    case Threw => Run(Failed(Caught), [statusCall])
    case Returned(status) =>
      if !status.lastattempt.cansubmit && !status.lastattempt.canedit then
        Run(Failed(SubmissionNotAllowed(assignment.name)), [statusCall])
      else if input.content.None? then
        Run(Failed(Caught), [statusCall])
      else
        var uploadCall := UploadFile(input.content.value, input.fileName);
        assert [statusCall, uploadCall][..1] == [statusCall];
        match AsUploaded(srv.respond(history + [statusCall], uploadCall))
        case Threw => Run(Failed(Caught), [statusCall, uploadCall])
        case Returned(files) =>
          if |files| == 0 then Run(Failed(UploadFailed), [statusCall, uploadCall])
          else
            var itemId := files[0].itemid;
            var saveCall := SaveSubmission(assignment.id, Some(itemId));
            var calls := [statusCall, uploadCall, saveCall];
            assert calls[..1] == [statusCall];
            assert calls[..2] == [statusCall, uploadCall];
            match AsSaveResult(srv.respond(history + [statusCall, uploadCall], saveCall))
            case Threw => Run(Failed(Caught), calls)
            case Returned(warnings) =>
              Run(SubmitReport(course.fullname, assignment.name, input.fileName, |input.content.value|, itemId, warnings), calls)
  }

  /**
   * The `submit` handler, stated on its whole call trace: no call before the
   * input is accepted; each later call is made only when the reply before it
   * allows, and each stop names the reason; a completed submission made all
   * five calls of the protocol, and the save binds the first uploaded item id.
   */
  function SubmitTool(srv: Server, userId: int, fs: FileSystem, args: Args, history: seq<Call>): (run: Run)
    ensures run.calls == [] <==> ValidateSubmission(args, fs).Failure?
    ensures ValidateSubmission(args, fs).Failure? ==> run.outcome == Failed(ValidateSubmission(args, fs).error)
    ensures FollowsProtocol(run.calls)
    // the course listing
    ensures ValidateSubmission(args, fs).Success? ==>
      var query := ValidateSubmission(args, fs).value.courseName;
      var listing := ListingOf(srv, history, userId);
      && run.calls[0] == GetUserCourses(userId, 0)
      && (|run.calls| >= 2 <==> listing.Returned? && FindCourse(listing.value, query).Some?)
      && (listing.Threw? ==> run.outcome == Failed(Caught))
      && (listing.Returned? && FindCourse(listing.value, query).None? ==>
            run.outcome == Failed(CourseNotFound(query, Some(FullNames(listing.value)))))
    // the assignments of the course found, and only of it
    ensures |run.calls| >= 2 ==>
      var input := ValidateSubmission(args, fs).value;
      var course := FindCourse(ListingOf(srv, history, userId).value, input.courseName).value;
      var response := AsAssignments(ReplyTo(srv, history, run.calls, 1));
      && run.calls[1] == GetAssignments([course.id], 1)
      && (|run.calls| >= 3 <==> response.Returned? && FindAssignment(response.value, input.assignmentName).Some?)
      && (response.Threw? ==> run.outcome == Failed(Caught))
      && (response.Returned? && FindAssignment(response.value, input.assignmentName).None? ==>
            run.outcome == Failed(AssignmentNotFound(input.assignmentName, AssignmentNames(Flatten(response.value.courses)))))
    // the status of the assignment found: the upload needs `cansubmit || canedit`, then the file's bytes
    ensures |run.calls| >= 3 ==>
      var input := ValidateSubmission(args, fs).value;
      var assignment := FindAssignment(AsAssignments(ReplyTo(srv, history, run.calls, 1)).value, input.assignmentName).value;
      var status := AsStatus(ReplyTo(srv, history, run.calls, 2));
      var allowed := status.Returned? && (status.value.lastattempt.cansubmit || status.value.lastattempt.canedit);
      && run.calls[2] == GetSubmissionStatus(assignment.id, None)
      && (|run.calls| >= 4 <==> allowed && input.content.Some?)
      && (status.Threw? ==> run.outcome == Failed(Caught))
      && (status.Returned? && !allowed ==> run.outcome == Failed(SubmissionNotAllowed(assignment.name)))
      && (allowed && input.content.None? ==> run.outcome == Failed(Caught))
    // the upload: the save needs at least one uploaded file
    ensures |run.calls| >= 4 ==>
      var input := ValidateSubmission(args, fs).value;
      var uploaded := AsUploaded(ReplyTo(srv, history, run.calls, 3));
      && input.content.Some?
      && run.calls[3] == UploadFile(input.content.value, input.fileName)
      && (|run.calls| == 5 <==> uploaded.Returned? && |uploaded.value| > 0)
      && (uploaded.Threw? ==> run.outcome == Failed(Caught))
      && (uploaded == Returned([]) ==> run.outcome == Failed(UploadFailed))
    // the save: any body completes the submission, and a non-empty result is carried as warnings
    ensures |run.calls| == 5 ==>
      var input := ValidateSubmission(args, fs).value;
      var course := FindCourse(ListingOf(srv, history, userId).value, input.courseName).value;
      var assignment := FindAssignment(AsAssignments(ReplyTo(srv, history, run.calls, 1)).value, input.assignmentName).value;
      var itemId := AsUploaded(ReplyTo(srv, history, run.calls, 3)).value[0].itemid;
      var saved := AsSaveResult(ReplyTo(srv, history, run.calls, 4));
      && run.calls[4] == SaveSubmission(assignment.id, Some(itemId))
      && (saved.Returned? ==>
            run.outcome == SubmitReport(course.fullname, assignment.name, input.fileName, |input.content.value|, itemId, saved.value))
      && (saved.Threw? ==> run.outcome == Failed(Caught))
    ensures run.outcome.SubmitReport? ==> |run.calls| == 5
  {
    match ValidateSubmission(args, fs)
    case Failure(e) => Run(Failed(e), [])
    case Success(input) =>
      var t := ResolveTarget(srv, history, userId, input.courseName, input.assignmentName, true);
      LookupReplies(srv, history, t.calls);
      match t.result
      case Failure(e) => Run(Failed(e), t.calls)
      case Success(target) =>
        var r := SubmitToAssignment(srv, history + t.calls, input, target.0, target.1);
        ProtocolAppend(t.calls, r.calls);
        ReplyPrefix(srv, history, t.calls, r.calls, 0);
        ReplyPrefix(srv, history, t.calls, r.calls, 1);
        ReplyShifts(srv, history, t.calls, r.calls);
        Run(r.outcome, t.calls + r.calls)
  }

  /** The first two replies of a trace, as the lookups see them. */
  lemma LookupReplies(srv: Server, history: seq<Call>, calls: seq<Call>)
    requires |calls| >= 1
    ensures ReplyTo(srv, history, calls, 0) == srv.respond(history, calls[0])
    ensures |calls| >= 2 ==> ReplyTo(srv, history, calls, 1) == srv.respond(history + [calls[0]], calls[1])
  {
    assert history + calls[..0] == history;
    if |calls| >= 2 {
      assert calls[..1] == [calls[0]];
    }
  }

  /** The replies of the submission proper, seen from the whole trace: shifted by the two lookups. */
  lemma ReplyShifts(srv: Server, history: seq<Call>, lookups: seq<Call>, rest: seq<Call>)
    requires |lookups| == 2 && 1 <= |rest| <= 3
    ensures ReplyTo(srv, history, lookups + rest, 2) == ReplyTo(srv, history + lookups, rest, 0)
    ensures |rest| > 1 ==> ReplyTo(srv, history, lookups + rest, 3) == ReplyTo(srv, history + lookups, rest, 1)
    ensures |rest| > 2 ==> ReplyTo(srv, history, lookups + rest, 4) == ReplyTo(srv, history + lookups, rest, 2)
  {
    ReplyShift(srv, history, lookups, rest, 0);
    if |rest| > 1 { ReplyShift(srv, history, lookups, rest, 1); }
    if |rest| > 2 { ReplyShift(srv, history, lookups, rest, 2); }
  }

  // ---------------------------------------------------------------------------
  // Startup
  // ---------------------------------------------------------------------------

  /** The identity fetch before any tool is served; a failure here ends the process. */
  function Startup(srv: Server): (t: Traced<UserInfo>)
    ensures t.calls == [GetSiteInfo]
    ensures t.result.Returned? <==> srv.respond([], GetSiteInfo).SiteInfoReply?
    ensures t.result.Returned? ==> t.result.value == srv.respond([], GetSiteInfo).info
  {
    Traced(AsUserInfo(srv.respond([], GetSiteInfo)), [GetSiteInfo])
  }
}
