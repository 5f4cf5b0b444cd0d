/**
 * Name resolution: free-text course and assignment names are mapped to records
 * by case-insensitive substring matching, and the first match in listing order
 * wins. There is no ranking; an ambiguous query silently picks the earliest hit.
 */
module Resolver {
  import opened Common
  import opened Text
  import opened Domain

  // ---------------------------------------------------------------------------
  // Courses
  // ---------------------------------------------------------------------------

  /**
   * The course predicate: the query occurs, ignoring case, in the full, short or
   * display name. The empty query matches every course, and no course matches a
   * query longer than all three of its names.
   */
  function CourseMatches(c: Course, query: string): (b: bool)
    ensures query == [] ==> b
    ensures b ==> |query| <= |c.fullname| || |query| <= |c.shortname| || |query| <= |c.displayname|
  {
    EmptyNeedleFound(c.fullname);
    || ContainsIgnoringCase(c.fullname, query)
    || ContainsIgnoringCase(c.shortname, query)
    || ContainsIgnoringCase(c.displayname, query)
  }

  /** `i` is the position of the first course in `courses` that matches `query`. */
  predicate FirstCourseMatch(courses: seq<Course>, query: string, i: int) {
    && 0 <= i < |courses|
    && CourseMatches(courses[i], query)
    && forall j :: 0 <= j < i ==> !CourseMatches(courses[j], query)
  }

  /** Kotlin's `find` over a course listing, as an index: the first match at or after `from`. */
  function FirstCourseFrom(courses: seq<Course>, query: string, from: nat): (r: Option<nat>)
    requires from <= |courses|
    ensures r.Some? ==> from <= r.value < |courses| && CourseMatches(courses[r.value], query)
    ensures r.Some? ==> forall j :: from <= j < r.value ==> !CourseMatches(courses[j], query)
    ensures r.None? <==> forall j :: from <= j < |courses| ==> !CourseMatches(courses[j], query)
    decreases |courses| - from
  {
    if from == |courses| then None
    else if CourseMatches(courses[from], query) then Some(from)
    else FirstCourseFrom(courses, query, from + 1)
  }

  /** The course lookup shared by the three tool handlers and `findCourseByName`. */
  function FindCourse(courses: seq<Course>, query: string): (r: Option<Course>)
    ensures r.None? <==> forall i :: 0 <= i < |courses| ==> !CourseMatches(courses[i], query)
    ensures r.Some? ==> exists i :: FirstCourseMatch(courses, query, i) && courses[i] == r.value
  {
    match FirstCourseFrom(courses, query, 0)
    case None => None
    case Some(i) => Some(courses[i])
  }

  /** The full names offered as alternatives when a course is not found, in listing order. */
  function FullNames(courses: seq<Course>): (names: seq<string>)
    ensures |names| == |courses|
    ensures forall i :: 0 <= i < |courses| ==> names[i] == courses[i].fullname
  {
    seq(|courses|, i requires 0 <= i < |courses| => courses[i].fullname)
  }

  // ---------------------------------------------------------------------------
  // Assignments
  // ---------------------------------------------------------------------------

  /** `courses.flatMap { it.assignments }`: every course's assignments, course by course. */
  function Flatten(courses: seq<CourseWithAssignments>): (all: seq<Assignment>)
    ensures |all| == TotalAssignments(courses)
    ensures courses != [] ==> all[..|courses[0].assignments|] == courses[0].assignments
    decreases |courses|
  {
    if courses == [] then [] else courses[0].assignments + Flatten(courses[1..])
  }

  /**
   * The assignment predicate: the query occurs, ignoring case, in the name. No
   * other field is consulted. The empty query matches every assignment, and no
   * assignment matches a query longer than its name.
   */
  function AssignmentMatches(a: Assignment, query: string): (b: bool)
    ensures query == [] ==> b
    ensures b ==> |query| <= |a.name|
  {
    EmptyNeedleFound(a.name);
    ContainsIgnoringCase(a.name, query)
  }

  /** `i` is the position of the first assignment in `all` whose name matches `query`. */
  predicate FirstAssignmentMatch(all: seq<Assignment>, query: string, i: int) {
    && 0 <= i < |all|
    && AssignmentMatches(all[i], query)
    && forall j :: 0 <= j < i ==> !AssignmentMatches(all[j], query)
  }

  /** Kotlin's `find` over the flattened assignments, as an index: the first match at or after `from`. */
  function FirstAssignmentFrom(all: seq<Assignment>, query: string, from: nat): (r: Option<nat>)
    requires from <= |all|
    ensures r.Some? ==> from <= r.value < |all| && AssignmentMatches(all[r.value], query)
    ensures r.Some? ==> forall j :: from <= j < r.value ==> !AssignmentMatches(all[j], query)
    ensures r.None? <==> forall j :: from <= j < |all| ==> !AssignmentMatches(all[j], query)
    decreases |all| - from
  {
    if from == |all| then None
    else if AssignmentMatches(all[from], query) then Some(from)
    else FirstAssignmentFrom(all, query, from + 1)
  }

  /** `findAssignmentByName`: the first matching assignment of the flattened listing. */
  function FindAssignment(response: AssignmentResponse, query: string): (r: Option<Assignment>)
    ensures var all := Flatten(response.courses);
      r.None? <==> forall i :: 0 <= i < |all| ==> !AssignmentMatches(all[i], query)
    ensures var all := Flatten(response.courses);
      r.Some? ==> exists i :: FirstAssignmentMatch(all, query, i) && all[i] == r.value
  {
    var all := Flatten(response.courses);
    match FirstAssignmentFrom(all, query, 0)
    case None => None
    case Some(i) => Some(all[i])
  }

  /** The assignment names offered as alternatives when an assignment is not found. */
  function AssignmentNames(assignments: seq<Assignment>): (names: seq<string>)
    ensures |names| == |assignments|
    ensures forall i :: 0 <= i < |assignments| ==> names[i] == assignments[i].name
  {
    seq(|assignments|, i requires 0 <= i < |assignments| => assignments[i].name)
  }

  /** Flattening distributes over concatenation of course lists. */
  lemma {:induction false} FlattenAppend(xs: seq<CourseWithAssignments>, ys: seq<CourseWithAssignments>)
    ensures Flatten(xs + ys) == Flatten(xs) + Flatten(ys)
    decreases |xs|
  {
    if xs == [] {
      assert xs + ys == ys;
    } else {
      assert (xs + ys)[1..] == xs[1..] + ys;
      FlattenAppend(xs[1..], ys);
    }
  }

  /** An assignment is in the flattened listing exactly when some course lists it. */
  lemma {:induction false} FlattenMembership(courses: seq<CourseWithAssignments>, a: Assignment)
    ensures a in Flatten(courses) <==> exists i :: 0 <= i < |courses| && a in courses[i].assignments
    decreases |courses|
  {
    if courses != [] {
      FlattenMembership(courses[1..], a);
      if a in Flatten(courses[1..]) {
        var i :| 0 <= i < |courses[1..]| && a in courses[1..][i].assignments;
        assert courses[i + 1] == courses[1..][i];
      }
      if exists i :: 0 <= i < |courses| && a in courses[i].assignments {
        var i :| 0 <= i < |courses| && a in courses[i].assignments;
        if i > 0 {
          assert courses[1..][i - 1] == courses[i];
        }
      }
    }
  }

  /** The number of assignments of all courses together. */
  function TotalAssignments(courses: seq<CourseWithAssignments>): nat
    decreases |courses|
  {
    if courses == [] then 0 else |courses[0].assignments| + TotalAssignments(courses[1..])
  }

  /** `findAssignmentByName` finds nothing exactly when no assignment of any course has a matching name. */
  lemma FindAssignmentNoneIff(response: AssignmentResponse, query: string)
    ensures FindAssignment(response, query).None? <==>
      forall a :: a in Flatten(response.courses) ==> !AssignmentMatches(a, query)
    ensures FindAssignment(response, query).None? <==>
      forall c, a :: c in response.courses && a in c.assignments ==> !AssignmentMatches(a, query)
  {
    var all := Flatten(response.courses);
    forall a | a in all
      ensures exists c :: c in response.courses && a in c.assignments
    {
      FlattenMembership(response.courses, a);
    }
    forall c, a | c in response.courses && a in c.assignments
      ensures a in all
    {
      var i :| 0 <= i < |response.courses| && response.courses[i] == c;
      FlattenMembership(response.courses, a);
    }
  }

  /** An empty query matches everything, so the first course of a non-empty listing is chosen. */
  lemma EmptyQueryPicksFirstCourse(courses: seq<Course>)
    requires |courses| > 0
    ensures FindCourse(courses, "") == Some(courses[0])
  {
    EmptyNeedleFound(courses[0].fullname);
    assert FirstCourseMatch(courses, "", 0);
  }

  /** Likewise the first assignment of the flattened listing is chosen for an empty query. */
  lemma EmptyQueryPicksFirstAssignment(response: AssignmentResponse)
    requires |Flatten(response.courses)| > 0
    ensures FindAssignment(response, "") == Some(Flatten(response.courses)[0])
  {
    var all := Flatten(response.courses);
    EmptyNeedleFound(all[0].name);
    assert FirstAssignmentMatch(all, "", 0);
  }

  /** Ambiguity is settled by position: an earlier match always shadows a later one. */
  lemma EarlierCourseWins(courses: seq<Course>, query: string, i: int)
    requires 0 <= i < |courses| && CourseMatches(courses[i], query)
    ensures FindCourse(courses, query).Some?
    ensures exists k :: 0 <= k <= i && courses[k] == FindCourse(courses, query).value
  {
    var r := FindCourse(courses, query);
    assert r.Some?;
    var k :| FirstCourseMatch(courses, query, k) && courses[k] == r.value;
    assert k <= i;
  }

  /** A course is found through its short name even when its full name does not contain the query. */
  lemma ShortNameScenario()
    ensures var os := Course(1, "OS1", "Operating Systems I", "Operating Systems I");
      && !ContainsIgnoringCase(os.fullname, "os1")
      && FindCourse([os], "os1") == Some(os)
  {
    var os := Course(1, "OS1", "Operating Systems I", "Operating Systems I");
    assert MatchesAt(os.shortname, "os1", 0);
    assert '1' !in os.fullname;
    forall i | 0 <= i <= |os.fullname|
      ensures !MatchesAt(os.fullname, "os1", i)
    {
      if i + 3 <= |os.fullname| {
        var c := os.fullname[i + 2];
        assert c in os.fullname;
        assert c != '1' && UpperChar(c) != '1';
        assert "os1"[2] == '1';
        assert !SameIgnoringCase(os.fullname[i + 2], "os1"[2]);
      }
    }
  }

  /** "midterm" selects "Midterm Report" over "Final Report". */
  lemma MidtermScenario()
    ensures var mid := Assignment(1, "Midterm Report");
      var fin := Assignment(2, "Final Report");
      FindAssignment(AssignmentResponse([CourseWithAssignments(10, "C", [mid, fin])]), "midterm") == Some(mid)
  {
    var mid := Assignment(1, "Midterm Report");
    var fin := Assignment(2, "Final Report");
    var response := AssignmentResponse([CourseWithAssignments(10, "C", [mid, fin])]);
    assert Flatten(response.courses) == [mid, fin] by {
      assert Flatten(response.courses[1..]) == [];
    }
    assert MatchesAt(mid.name, "midterm", 0);
    assert FirstAssignmentMatch([mid, fin], "midterm", 0);
  }
}
