/**
 * The remote endpoint as an oracle. The server answers each call knowing every
 * call made before it, so two listings fetched one after the other may differ.
 * Because request shaping is injective (`ApiRequests.EncodeInjective`), answering
 * the call is the same as answering the request built from it.
 *
 * A reply that is not of the shape the operation expects stands for a JSON
 * decoding failure; like a transport fault it surfaces as a thrown exception.
 */
module Client {
  import opened Common
  import opened Domain
  import opened ApiRequests

  /** What comes back over the wire, already decoded; `Fault` is a transport failure. */
  datatype Reply =
    | SiteInfoReply(info: UserInfo)
    | CoursesReply(courses: seq<Course>)
    | AssignmentsReply(response: AssignmentResponse)
    | StatusReply(status: SubmissionStatusResponse)
    | UploadReply(files: seq<UploadedFile>)
    | BodyReply(body: string)
    | Fault

  /** The remote service: its reply to `call` after the calls `history`. */
  datatype Server = Server(respond: (seq<Call>, Call) -> Reply)

  /** A client call either returns a value or throws. */
  datatype Attempt<+T> = Returned(value: T) | Threw

  /** A client-level result (or the exception it lets through) and the calls made to obtain it. */
  datatype Traced<+T> = Traced(result: Attempt<T>, calls: seq<Call>)

  /** The reply to the `i`-th of `calls`, issued after `history` and the calls before it. */
  function ReplyTo(srv: Server, history: seq<Call>, calls: seq<Call>, i: nat): Reply
    requires i < |calls|
  {
    srv.respond(history + calls[..i], calls[i])
  }

  /** `getUserInfo`. */
  function AsUserInfo(reply: Reply): (r: Attempt<UserInfo>)
    ensures r.Returned? <==> reply.SiteInfoReply?
    ensures r.Returned? ==> r.value == reply.info
  {
    if reply.SiteInfoReply? then Returned(reply.info) else Threw
  }

  /** `getUserCourses`. */
  function AsCourses(reply: Reply): (r: Attempt<seq<Course>>)
    ensures r.Returned? <==> reply.CoursesReply?
    ensures r.Returned? ==> r.value == reply.courses
  {
    if reply.CoursesReply? then Returned(reply.courses) else Threw
  }

  /** `getAssignments`. */
  function AsAssignments(reply: Reply): (r: Attempt<AssignmentResponse>)
    ensures r.Returned? <==> reply.AssignmentsReply?
    ensures r.Returned? ==> r.value == reply.response
  {
    if reply.AssignmentsReply? then Returned(reply.response) else Threw
  }

  /** `getSubmissionStatus`. */
  function AsStatus(reply: Reply): (r: Attempt<SubmissionStatusResponse>)
    ensures r.Returned? <==> reply.StatusReply?
    ensures r.Returned? ==> r.value == reply.status
  {
    if reply.StatusReply? then Returned(reply.status) else Threw
  }

  /** `uploadFile`. */
  function AsUploaded(reply: Reply): (r: Attempt<seq<UploadedFile>>)
    ensures r.Returned? <==> reply.UploadReply?
    ensures r.Returned? ==> r.value == reply.files
  {
    if reply.UploadReply? then Returned(reply.files) else Threw
  }

  /** `saveSubmission`: any body is read as text and classified; only a transport fault throws. */
  function AsSaveResult(reply: Reply): (r: Attempt<seq<string>>)
    ensures r.Returned? <==> reply.BodyReply?
    ensures r.Returned? ==> r.value == ApiRequests.ClassifySaveBody(reply.body)
  {
    match reply
    case BodyReply(body) => Returned(ClassifySaveBody(body))
    case _ => Threw
  }

  /** The reply to a call does not depend on the calls made after it. */
  lemma ReplyPrefix(srv: Server, history: seq<Call>, a: seq<Call>, b: seq<Call>, i: nat)
    requires i < |a|
    ensures ReplyTo(srv, history, a + b, i) == ReplyTo(srv, history, a, i)
  {
    assert (a + b)[..i] == a[..i];
    assert (a + b)[i] == a[i];
  }

  /** Replies in a longer trace: a call's reply is its reply after the history extended with the calls before the block. */
  lemma ReplyShift(srv: Server, history: seq<Call>, a: seq<Call>, b: seq<Call>, j: nat)
    requires j < |b|
    ensures ReplyTo(srv, history, a + b, |a| + j) == ReplyTo(srv, history + a, b, j)
  {
    assert (a + b)[..|a| + j] == a + b[..j];
    assert (a + b)[|a| + j] == b[j];
    assert history + (a + b[..j]) == (history + a) + b[..j];
  }
}
