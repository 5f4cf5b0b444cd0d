/**
 * The decoded Moodle web-service records, reduced to the fields the client,
 * resolver and tool handlers read. Every other field of the JSON payloads is
 * ignored on decoding and is absent here.
 */
module Domain {
  import opened Common

  /** `UserInfo`, the result of `core_webservice_get_site_info`. */
  datatype UserInfo = UserInfo(fullname: string, userid: int)

  /** One entry of `core_enrol_get_users_courses`. */
  datatype Course = Course(id: int, shortname: string, fullname: string, displayname: string)

  /** One entry of a course's assignment list. */
  datatype Assignment = Assignment(id: int, name: string)

  /** A course as returned by `mod_assign_get_assignments`, with its assignments in listing order. */
  datatype CourseWithAssignments = CourseWithAssignments(id: int, fullname: string, assignments: seq<Assignment>)

  datatype AssignmentResponse = AssignmentResponse(courses: seq<CourseWithAssignments>)

  /** The current submission attempt. Timestamps are epoch seconds. */
  datatype Submission = Submission(
    id: int,
    attemptnumber: int,
    timecreated: int,
    timemodified: int,
    timestarted: Option<int>,
    status: string)

  /** The `lastattempt` part of `mod_assign_get_submission_status`. */
  datatype LastAttempt = LastAttempt(
    submission: Option<Submission>,
    submissionsenabled: bool,
    locked: bool,
    graded: bool,
    canedit: bool,
    cansubmit: bool,
    extensionduedate: Option<int>,
    timelimit: int,
    gradingstatus: string)

  datatype SubmissionStatusResponse = SubmissionStatusResponse(lastattempt: LastAttempt)

  /** One file descriptor returned by the upload endpoint; `itemid` binds it to a later save. */
  datatype UploadedFile = UploadedFile(itemid: int, filename: string)
}
