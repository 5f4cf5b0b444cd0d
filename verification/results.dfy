/**
 * What a tool invocation produces. The source renders every outcome as one
 * text payload; here each outcome keeps the values that text is built from.
 */
module ToolResults {
  import opened Common
  import opened Domain
  import opened ApiRequests

  /** The error-shaped results of the three tool handlers. */
  datatype ToolError =
    | MissingParameter(name: string)
    | FileNotFound(path: string)
    | NotAFile(path: string)
      /** `courses` lists full names; the submission-status handler lists none. */
    | CourseNotFound(courseQuery: string, courses: Option<seq<string>>)
    | AssignmentNotFound(assignmentQuery: string, assignments: seq<string>)
    | SubmissionNotAllowed(assignmentName: string)
    | UploadFailed
      /** An exception caught by the handler's catch block: a transport fault, a decoding failure, a non-primitive argument. */
    | Caught

  /** A formatted epoch-seconds timestamp: "設定なし" (not set) for zero or negative values, else the instant in Asia/Tokyo. */
  datatype TimeText = NotSet | At(epochSeconds: int)

  datatype SubmissionLine = SubmissionLine(
    id: int,
    statusLabel: string,
    attemptCount: int,
    created: TimeText,
    modified: TimeText,
    started: Option<TimeText>)

  /** The facts the submission-status report shows. */
  datatype StatusSummary = StatusSummary(
    assignmentName: string,
    submission: Option<SubmissionLine>,
    submissionsEnabled: bool,
    locked: bool,
    gradingLabel: string,
    graded: bool,
    extension: Option<TimeText>,
    timeLimitSeconds: Option<int>)

  datatype Outcome =
    | AssignmentList(response: AssignmentResponse)
    | StatusReport(summary: StatusSummary)
      /** Reports completion; `warnings` is the save result, empty when the save was clean. */
    | SubmitReport(courseFullname: string, assignmentName: string, fileName: string, fileSize: nat, itemId: int, warnings: seq<string>)
    | Failed(error: ToolError)

  /** One tool invocation: its outcome and the client calls it made, in order. */
  datatype Run = Run(outcome: Outcome, calls: seq<Call>)

  /** A stage of a handler: its value or the error result it stops with, and the calls it made. */
  datatype Step<+T> = Step(result: Result<T, ToolError>, calls: seq<Call>)
}
