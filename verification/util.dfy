/**
 * The resolver helpers of `MoodleApiClientUtil`: each returns a pair of which
 * exactly one component is present, the record found or the error result.
 * The tool handlers do not call these helpers; they inline the same lookups
 * (module `Tools`). The two versions differ in the calls they make when a
 * course is not found: this helper fetches the course listing a second time.
 */
module ClientUtil {
  import opened Common
  import opened Domain
  import opened ApiRequests
  import opened Client
  import opened Resolver
  import opened ToolResults

  /** `findCourseByName`: one course listing, searched with the three-field first-match predicate. */
  function FindCourseByName(srv: Server, history: seq<Call>, userId: int, courseName: string): (t: Traced<Option<Course>>)
    ensures t.calls == [GetUserCourses(userId, 0)]
    ensures var listing := AsCourses(ReplyTo(srv, history, t.calls, 0));
      && (t.result.Returned? <==> listing.Returned?)
      && (t.result.Returned? ==> t.result.value == FindCourse(listing.value, courseName))
  {
    var call := GetUserCourses(userId, 0);
    assert history + [call][..0] == history;
    match AsCourses(srv.respond(history, call))
    case Threw => Traced(Threw, [call])
    case Returned(courses) => Traced(Returned(FindCourse(courses, courseName)), [call])
  }

  /**
   * `findAndValidateCourse`: exactly one of (course, error) is present. When the
   * first listing has no match, a second `getUserCourses` is issued and the
   * candidate names come from that second listing.
   */
  function FindAndValidateCourse(srv: Server, history: seq<Call>, userId: int, courseName: string)
    : (t: Traced<(Option<Course>, Option<ToolError>)>)
    ensures t.result.Returned? ==> (t.result.value.0.Some? <==> t.result.value.1.None?)
    ensures 1 <= |t.calls| <= 2
    ensures forall i :: 0 <= i < |t.calls| ==> t.calls[i] == GetUserCourses(userId, 0)
    ensures var first := AsCourses(ReplyTo(srv, history, t.calls, 0));
      |t.calls| == 2 <==> first.Returned? && FindCourse(first.value, courseName).None?
    ensures var first := AsCourses(ReplyTo(srv, history, t.calls, 0));
      t.result.Returned? <==>
        first.Returned? && (|t.calls| == 1 || AsCourses(ReplyTo(srv, history, t.calls, 1)).Returned?)
    ensures var first := AsCourses(ReplyTo(srv, history, t.calls, 0));
      t.result.Returned? && t.result.value.0.Some? ==>
        first.Returned? && t.result.value.0 == FindCourse(first.value, courseName)
    ensures t.result.Returned? && t.result.value.1.Some? ==>
      && |t.calls| == 2
      && var second := AsCourses(ReplyTo(srv, history, t.calls, 1));
      && second.Returned?
      && t.result.value.1.value == CourseNotFound(courseName, Some(FullNames(second.value)))
  {
    var first := FindCourseByName(srv, history, userId, courseName);
    match first.result
    case Threw => Traced(Threw, first.calls)
    case Returned(found) =>
      if found.Some? then Traced(Returned((found, None)), first.calls)
      else
        var call := GetUserCourses(userId, 0);
        var calls := first.calls + [call];
        assert calls[..1] == first.calls;
        match AsCourses(srv.respond(history + first.calls, call))
        case Threw => Traced(Threw, calls)
        case Returned(courses) =>
          Traced(Returned((None, Some(CourseNotFound(courseName, Some(FullNames(courses)))))), calls)
  }

  /**
   * `findAndValidateAssignment`: a single `getAssignments([courseId])`, searched by
   * name; on a miss the candidate names are those of that same response, flattened
   * in order. Exactly one of (assignment, error) is present.
   */
  function FindAndValidateAssignment(srv: Server, history: seq<Call>, courseId: int, assignmentName: string)
    : (t: Traced<(Option<Assignment>, Option<ToolError>)>)
    ensures t.calls == [GetAssignments([courseId], 1)]
    ensures t.result.Returned? ==> (t.result.value.0.Some? <==> t.result.value.1.None?)
    ensures var response := AsAssignments(ReplyTo(srv, history, t.calls, 0));
      && (t.result.Returned? <==> response.Returned?)
      && (t.result.Returned? ==> t.result.value.0 == FindAssignment(response.value, assignmentName))
      && (t.result.Returned? && t.result.value.1.Some? ==>
            t.result.value.1.value
              == AssignmentNotFound(assignmentName, AssignmentNames(Flatten(response.value.courses))))
  {
    var call := GetAssignments([courseId], 1);
    assert history + [call][..0] == history;
    match AsAssignments(srv.respond(history, call))
    case Threw => Traced(Threw, [call])
    case Returned(response) =>
      match FindAssignment(response, assignmentName)
      case Some(a) => Traced(Returned((Some(a), None)), [call])
      case None =>
        Traced(Returned((None, Some(AssignmentNotFound(assignmentName, AssignmentNames(Flatten(response.courses)))))), [call])
  }

  /** A server whose course listing is empty on the first request and holds `c` afterwards. */
  function ListingThatGrows(c: Course): Server {
    Server((h: seq<Call>, call: Call) => if |h| == 0 then CoursesReply([]) else CoursesReply([c]))
  }

  /**
   * Because of the second fetch, the helper's not-found message can offer a
   * course that matches the query: here the first listing is empty and the
   * second, fetched a moment later, holds a matching course.
   */
  lemma RefetchCanOfferMatchingCourse()
    ensures var os := Course(1, "OS", "Operating Systems", "Operating Systems");
      var t := FindAndValidateCourse(ListingThatGrows(os), [], 7, "os");
      && CourseMatches(os, "os")
      && t.result == Returned((None, Some(CourseNotFound("os", Some(["Operating Systems"])))))
  {
    var os := Course(1, "OS", "Operating Systems", "Operating Systems");
    var srv := ListingThatGrows(os);
    var call := GetUserCourses(7, 0);
    assert srv.respond([], call) == CoursesReply([]);
    assert srv.respond([call], call) == CoursesReply([os]);
    assert Text.MatchesAt(os.shortname, "os", 0);
    assert FindCourse([], "os") == None;
    assert FullNames([os]) == ["Operating Systems"];
  }
}
