/**
 * Request shaping in `MoodleApiClient`: every web-service operation becomes an
 * ordered list of form parameters (fixed control fields, then the operation's
 * own fields, then the three standard settings), and the upload becomes an
 * ordered multipart form. A decoder that reads a request back into the call it
 * came from shows that the shaping loses nothing and confuses nothing.
 *
 * Wire encoding (URL-encoding of the form, multipart framing) is not modelled:
 * a request is its ordered list of fields.
 */
module ApiRequests {
  import opened Common
  import opened Decimal
  import opened Text

  const RestEndpoint: string := "https://cms7.ict.nitech.ac.jp/moodle40a/webservice/rest/server.php"
  const UploadEndpoint: string := "https://cms7.ict.nitech.ac.jp/moodle40a/webservice/upload.php"

  /** The language tag every settings block carries. */
  const SettingsLang: string := "ja"

  datatype Param = Param(key: string, value: string)

  /** One client operation with all of its arguments, defaults included. */
  datatype Call =
    | GetSiteInfo
    | GetUserCourses(userId: int, returnUserCount: int)
    | GetAssignments(courseIds: seq<int>, includeNotEnrolledCourses: int)
    | GetSubmissionStatus(assignId: int, forUser: Option<int>)
    | UploadFile(content: seq<byte>, fileName: string)
    | SaveSubmission(assignmentId: int, fileManagerId: Option<int>)

  datatype FormPart =
    | TextPart(name: string, value: string)
    | FilePart(name: string, content: seq<byte>, contentType: string, contentDisposition: string)

  datatype Request =
    | FormPost(url: string, params: seq<Param>)
    | MultipartPost(url: string, parts: seq<FormPart>)

  /** Kotlin's `Boolean.toString()`. */
  function BoolText(b: bool): string {
    if b then "true" else "false"
  }

  /** `createBaseParameters`: response format, function name, token. */
  function BaseParameters(token: string, wsfunction: string): (ps: seq<Param>)
    ensures Keys(ps) == ["moodlewsrestformat", "wsfunction", "wstoken"]
    ensures ps[0].value == "json" && ps[1].value == wsfunction && ps[2].value == token
  {
    [Param("moodlewsrestformat", "json"), Param("wsfunction", wsfunction), Param("wstoken", token)]
  }

  /** `addStandardSettings`: filter flag, file-URL flag, language. */
  function StandardSettings(filter: bool, fileUrl: bool, lang: string): (ps: seq<Param>)
    ensures Keys(ps) == ["moodlewssettingfilter", "moodlewssettingfileurl", "moodlewssettinglang"]
    ensures (ps[0].value == "true" <==> filter) && (ps[1].value == "true" <==> fileUrl)
    ensures ps[2].value == lang
  {
    [Param("moodlewssettingfilter", BoolText(filter)),
     Param("moodlewssettingfileurl", BoolText(fileUrl)),
     Param("moodlewssettinglang", lang)]
  }

  /** The assembly in `executeApiCall`; `saveSubmission` assembles the same layout by hand. */
  function ApiCallParams(token: string, wsfunction: string, filter: bool, fileUrl: bool, specific: seq<Param>)
    : (ps: seq<Param>)
    ensures |ps| == 6 + |specific|
    ensures ps[..3] == BaseParameters(token, wsfunction)
    ensures ps[3..|ps| - 3] == specific
    ensures ps[|ps| - 3..] == StandardSettings(filter, fileUrl, SettingsLang)
  {
    BaseParameters(token, wsfunction) + specific + StandardSettings(filter, fileUrl, SettingsLang)
  }

  function WsFunction(call: Call): string
    requires !call.UploadFile?
  {
    match call
    case GetSiteInfo => "core_webservice_get_site_info"
    case GetUserCourses(_, _) => "core_enrol_get_users_courses"
    case GetAssignments(_, _) => "mod_assign_get_assignments"
    case GetSubmissionStatus(_, _) => "mod_assign_get_submission_status"
    case SaveSubmission(_, _) => "mod_assign_save_submission"
  }

  /** The filter and file-URL flags an operation sends (both flags agree for every operation). */
  function SettingsFlag(call: Call): bool
    requires !call.UploadFile?
  {
    !(call.GetSiteInfo? || call.GetSubmissionStatus?)
  }

  function CourseIdKey(index: int): string {
    "courseids[" + IntText(index) + "]"
  }

  /** `courseIds.forEachIndexed`: one `courseids[i]` entry per id, indices counted from `from`. */
  function CourseIdParams(ids: seq<int>, from: int): (ps: seq<Param>)
    ensures |ps| == |ids|
    ensures forall i :: 0 <= i < |ids| ==> ps[i] == Param(CourseIdKey(from + i), IntText(ids[i]))
    decreases |ids|
  {
    if ids == [] then [] else [Param(CourseIdKey(from), IntText(ids[0]))] + CourseIdParams(ids[1..], from + 1)
  }

  /** The operation's own fields, in the order the source appends them. */
  function SpecificParams(call: Call): (ps: seq<Param>)
    requires !call.UploadFile?
    ensures ps == [] <==> call.GetSiteInfo?
    ensures call.GetUserCourses? ==> Keys(ps) == ["userid", "returnusercount"]
    ensures call.GetAssignments? ==> |ps| == |call.courseIds| + 1 && ps[|ps| - 1].key == "includenotenrolledcourses"
    ensures call.GetSubmissionStatus? ==> |ps| == (if call.forUser.Some? then 2 else 1) && ps[0].key == "assignid"
    ensures call.SaveSubmission? ==> |ps| == (if call.fileManagerId.Some? then 2 else 1) && ps[0].key == "assignmentid"
  {
    match call
    case GetSiteInfo => []
    case GetUserCourses(userId, count) =>
      [Param("userid", IntText(userId)), Param("returnusercount", IntText(count))]
    case GetAssignments(ids, notEnrolled) =>
      CourseIdParams(ids, 0) + [Param("includenotenrolledcourses", IntText(notEnrolled))]
    case GetSubmissionStatus(assignId, userId) =>
      [Param("assignid", IntText(assignId))]
      + (if userId.Some? then [Param("userid", IntText(userId.value))] else [])
    case SaveSubmission(assignmentId, fileManagerId) =>
      [Param("assignmentid", IntText(assignmentId))]
      + (if fileManagerId.Some? then [Param("plugindata[files_filemanager]", IntText(fileManagerId.value))] else [])
  }

  function Params(token: string, call: Call): seq<Param>
    requires !call.UploadFile?
  {
    ApiCallParams(token, WsFunction(call), SettingsFlag(call), SettingsFlag(call), SpecificParams(call))
  }

  function Disposition(fileName: string): string {
    "filename=\"" + fileName + "\""
  }

  /** The multipart form of `uploadFile`: token, draft file area, item id 0, then the file. */
  function UploadParts(token: string, content: seq<byte>, fileName: string): seq<FormPart> {
    [TextPart("token", token),
     TextPart("filearea", "draft"),
     TextPart("itemid", "0"),
     FilePart("file", content, "application/octet-stream", Disposition(fileName))]
  }

  /**
   * The request the client sends for `call`, authenticated with `token`: a form
   * post to the REST endpoint, except the upload, which is a multipart post to
   * the upload endpoint.
   */
  function Encode(token: string, call: Call): (req: Request)
    ensures req.MultipartPost? <==> call.UploadFile?
    ensures req.url == if call.UploadFile? then UploadEndpoint else RestEndpoint
    ensures req.FormPost? ==> |req.params| == 6 + |SpecificParams(call)|
  {
    if call.UploadFile? then MultipartPost(UploadEndpoint, UploadParts(token, call.content, call.fileName))
    else FormPost(RestEndpoint, Params(token, call))
  }

  // ---------------------------------------------------------------------------
  // Reading a request back
  // ---------------------------------------------------------------------------

  function Keys(ps: seq<Param>): (ks: seq<string>)
    ensures |ks| == |ps|
    ensures forall i :: 0 <= i < |ps| ==> ks[i] == ps[i].key
  {
    seq(|ps|, i requires 0 <= i < |ps| => ps[i].key)
  }

  function DecodeCourseIds(ps: seq<Param>, from: int): Option<seq<int>>
    decreases |ps|
  {
    if ps == [] then Some([])
    else if ps[0].key != CourseIdKey(from) then None
    else match (ParseInt(ps[0].value), DecodeCourseIds(ps[1..], from + 1))
      case (Some(id), Some(rest)) => Some([id] + rest)
      case _ => None
  }

  function DecodeOptional(ps: seq<Param>, key: string): Option<Option<int>> {
    if ps == [] then Some(None)
    else if |ps| == 1 && ps[0].key == key && ParseInt(ps[0].value).Some? then Some(Some(ParseInt(ps[0].value).value))
    else None
  }

  /** The call whose operation-specific fields are `sp`, for function name `wsfunction`. */
  function DecodeSpecific(wsfunction: string, sp: seq<Param>): Option<Call> {
    if wsfunction == "core_webservice_get_site_info" then
      if sp == [] then Some(GetSiteInfo) else None
    else if wsfunction == "core_enrol_get_users_courses" then
      if |sp| == 2 && sp[0].key == "userid" && sp[1].key == "returnusercount" then
        match (ParseInt(sp[0].value), ParseInt(sp[1].value))
        case (Some(u), Some(n)) => Some(GetUserCourses(u, n))
        case _ => None
      else None
    else if wsfunction == "mod_assign_get_assignments" then
      if |sp| >= 1 && sp[|sp| - 1].key == "includenotenrolledcourses" then
        match (DecodeCourseIds(sp[..|sp| - 1], 0), ParseInt(sp[|sp| - 1].value))
        case (Some(ids), Some(n)) => Some(GetAssignments(ids, n))
        case _ => None
      else None
    else if wsfunction == "mod_assign_get_submission_status" then
      if |sp| >= 1 && sp[0].key == "assignid" then
        match (ParseInt(sp[0].value), DecodeOptional(sp[1..], "userid"))
        case (Some(a), Some(u)) => Some(GetSubmissionStatus(a, u))
        case _ => None
      else None
    else if wsfunction == "mod_assign_save_submission" then
      if |sp| >= 1 && sp[0].key == "assignmentid" then
        match (ParseInt(sp[0].value), DecodeOptional(sp[1..], "plugindata[files_filemanager]"))
        case (Some(a), Some(m)) => Some(SaveSubmission(a, m))
        case _ => None
      else None
    else None
  }

  function DecodeForm(ps: seq<Param>): Option<(string, Call)> {
    if |ps| < 6 || ps[0] != Param("moodlewsrestformat", "json") || ps[1].key != "wsfunction" || ps[2].key != "wstoken" then None
    else match DecodeSpecific(ps[1].value, ps[3..|ps| - 3])
      case None => None
      case Some(call) =>
        if ps[|ps| - 3..] == StandardSettings(SettingsFlag(call), SettingsFlag(call), SettingsLang)
        then Some((ps[2].value, call))
        else None
  }

  function DecodeUpload(parts: seq<FormPart>): Option<(string, Call)> {
    if |parts| != 4 || !parts[0].TextPart? || parts[0].name != "token"
      || parts[1] != TextPart("filearea", "draft") || parts[2] != TextPart("itemid", "0")
      || !parts[3].FilePart? || parts[3].name != "file" || parts[3].contentType != "application/octet-stream"
    then None
    else
      var d := parts[3].contentDisposition;
      if |d| >= 11 && d[..10] == "filename=\"" && d[|d| - 1] == '"'
      then Some((parts[0].value, UploadFile(parts[3].content, d[10..|d| - 1])))
      else None
  }

  /** What a receiving server reads out of a request: the token and the call. */
  function Decode(req: Request): Option<(string, Call)> {
    match req
    case FormPost(url, ps) => if url == RestEndpoint then DecodeForm(ps) else None
    case MultipartPost(url, parts) => if url == UploadEndpoint then DecodeUpload(parts) else None
  }

  // ---------------------------------------------------------------------------
  // Properties of the shaping
  // ---------------------------------------------------------------------------

  lemma DecodeCourseIdsCons(head: Param, tail: seq<Param>, from: int, id: int, rest: seq<int>)
    requires head.key == CourseIdKey(from) && ParseInt(head.value) == Some(id)
    requires DecodeCourseIds(tail, from + 1) == Some(rest)
    ensures DecodeCourseIds([head] + tail, from) == Some([id] + rest)
  {
    var ps := [head] + tail;
    assert ps[0] == head && ps[1..] == tail;
  }

  lemma {:induction false} CourseIdParamsRoundTrip(ids: seq<int>, from: int)
    ensures DecodeCourseIds(CourseIdParams(ids, from), from) == Some(ids)
    decreases |ids|
  {
    if ids != [] {
      var head := Param(CourseIdKey(from), IntText(ids[0]));
      var tail := CourseIdParams(ids[1..], from + 1);
      assert CourseIdParams(ids, from) == [head] + tail;
      IntTextRoundTrip(ids[0]);
      CourseIdParamsRoundTrip(ids[1..], from + 1);
      DecodeCourseIdsCons(head, tail, from, ids[0], ids[1..]);
      assert [ids[0]] + ids[1..] == ids;
    }
  }

  lemma AssignmentsRoundTrip(ids: seq<int>, notEnrolled: int)
    ensures var call := GetAssignments(ids, notEnrolled);
      DecodeSpecific(WsFunction(call), SpecificParams(call)) == Some(call)
  {
    var sp := SpecificParams(GetAssignments(ids, notEnrolled));
    assert sp[..|sp| - 1] == CourseIdParams(ids, 0);
    CourseIdParamsRoundTrip(ids, 0);
    IntTextRoundTrip(notEnrolled);
  }

  lemma StatusRoundTrip(assignId: int, forUser: Option<int>)
    ensures var call := GetSubmissionStatus(assignId, forUser);
      DecodeSpecific(WsFunction(call), SpecificParams(call)) == Some(call)
  {
    var w := WsFunction(GetSubmissionStatus(assignId, forUser));
    assert w[0] != "core_webservice_get_site_info"[0] && w[0] != "core_enrol_get_users_courses"[0];
    assert w[15] != "mod_assign_get_assignments"[15];
    IntTextRoundTrip(assignId);
    if forUser.Some? { IntTextRoundTrip(forUser.value); }
  }

  lemma SaveRoundTrip(assignmentId: int, fileManagerId: Option<int>)
    ensures var call := SaveSubmission(assignmentId, fileManagerId);
      DecodeSpecific(WsFunction(call), SpecificParams(call)) == Some(call)
  {
    var w := WsFunction(SaveSubmission(assignmentId, fileManagerId));
    assert w[0] != "core_webservice_get_site_info"[0] && w[0] != "core_enrol_get_users_courses"[0];
    assert w[11] != "mod_assign_get_assignments"[11] && w[11] != "mod_assign_get_submission_status"[11];
    IntTextRoundTrip(assignmentId);
    if fileManagerId.Some? { IntTextRoundTrip(fileManagerId.value); }
  }

  /** The specific fields determine the call: decoding them gives the call back. */
  lemma SpecificRoundTrip(call: Call)
    requires !call.UploadFile?
    ensures DecodeSpecific(WsFunction(call), SpecificParams(call)) == Some(call)
  {
    match call
    case GetSiteInfo =>
    case GetUserCourses(u, n) =>
      IntTextRoundTrip(u);
      IntTextRoundTrip(n);
    case GetAssignments(ids, n) => AssignmentsRoundTrip(ids, n);
    case GetSubmissionStatus(a, u) => StatusRoundTrip(a, u);
    case SaveSubmission(a, m) => SaveRoundTrip(a, m);
  }

  /** Every request the client can send reads back as exactly the token and call it was built from. */
  lemma EncodeDecodeRoundTrip(token: string, call: Call)
    ensures Decode(Encode(token, call)) == Some((token, call))
  {
    if call.UploadFile? {
      var d := Disposition(call.fileName);
      assert d[..10] == "filename=\"";
      assert d[10..|d| - 1] == call.fileName;
    } else {
      var ps := Params(token, call);
      var sp := SpecificParams(call);
      assert ps[3..|ps| - 3] == sp;
      assert ps[|ps| - 3..] == StandardSettings(SettingsFlag(call), SettingsFlag(call), SettingsLang);
      SpecificRoundTrip(call);
    }
  }

  /** So two different calls (or two tokens) never produce the same request. */
  lemma EncodeInjective(t1: string, c1: Call, t2: string, c2: Call)
    requires Encode(t1, c1) == Encode(t2, c2)
    ensures t1 == t2 && c1 == c2
  {
    EncodeDecodeRoundTrip(t1, c1);
    EncodeDecodeRoundTrip(t2, c2);
  }

  /**
   * Layout of every form request: the three control fields first, the three
   * settings last (never omitted, language always `ja`), the operation's own
   * fields in between, all sent to the REST endpoint.
   */
  lemma FormLayout(token: string, call: Call)
    requires !call.UploadFile?
    ensures Encode(token, call).FormPost? && Encode(token, call).url == RestEndpoint
    ensures var ps := Encode(token, call).params;
      && |ps| == 6 + |SpecificParams(call)|
      && ps[0] == Param("moodlewsrestformat", "json")
      && ps[1] == Param("wsfunction", WsFunction(call))
      && ps[2] == Param("wstoken", token)
      && ps[3..|ps| - 3] == SpecificParams(call)
      && ps[|ps| - 3].key == "moodlewssettingfilter"
      && ps[|ps| - 2].key == "moodlewssettingfileurl"
      && ps[|ps| - 1] == Param("moodlewssettinglang", "ja")
  {
    var ps := Encode(token, call).params;
    assert ps[3..|ps| - 3] == SpecificParams(call);
  }

  /** Site info and submission status send filter and file-URL as "false"; every other operation sends "true". */
  lemma SettingsValues(token: string, call: Call)
    requires !call.UploadFile?
    ensures var ps := Encode(token, call).params;
      var expected := if call.GetSiteInfo? || call.GetSubmissionStatus? then "false" else "true";
      ps[|ps| - 3].value == expected && ps[|ps| - 2].value == expected
  {
  }

  /** `courseids[i]` carries the i-th id, in order, right after the control fields, followed by `includenotenrolledcourses`. */
  lemma CourseIdsIndexed(token: string, ids: seq<int>, notEnrolled: int)
    ensures var ps := Encode(token, GetAssignments(ids, notEnrolled)).params;
      && |ps| == 7 + |ids|
      && (forall i :: 0 <= i < |ids| ==> ps[3 + i] == Param("courseids[" + IntText(i) + "]", IntText(ids[i])))
      && ps[3 + |ids|] == Param("includenotenrolledcourses", IntText(notEnrolled))
  {
    var ps := Encode(token, GetAssignments(ids, notEnrolled)).params;
    forall i | 0 <= i < |ids|
      ensures ps[3 + i] == Param("courseids[" + IntText(i) + "]", IntText(ids[i]))
    {
      assert ps[3 + i] == CourseIdParams(ids, 0)[i];
    }
    assert ps[3 + |ids|] == (CourseIdParams(ids, 0) + [Param("includenotenrolledcourses", IntText(notEnrolled))])[|ids|];
  }

  /** The keys of a form are the keys of its control fields, then of the operation's own fields, then of the settings. */
  lemma KeysOfForm(token: string, call: Call)
    requires !call.UploadFile?
    ensures Keys(Encode(token, call).params)
      == ["moodlewsrestformat", "wsfunction", "wstoken"] + Keys(SpecificParams(call))
         + ["moodlewssettingfilter", "moodlewssettingfileurl", "moodlewssettinglang"]
  {
    var ps := Encode(token, call).params;
    var sp := SpecificParams(call);
    KeysAppend(BaseParameters(token, WsFunction(call)) + sp, StandardSettings(SettingsFlag(call), SettingsFlag(call), SettingsLang));
    KeysAppend(BaseParameters(token, WsFunction(call)), sp);
  }

  lemma KeysAppend(a: seq<Param>, b: seq<Param>)
    ensures Keys(a + b) == Keys(a) + Keys(b)
  {
    assert forall i :: 0 <= i < |a| + |b| ==> Keys(a + b)[i] == (Keys(a) + Keys(b))[i];
  }

  /** The `userid` field of a submission-status request is present exactly when a user id is given. */
  lemma UserIdPresentIffGiven(token: string, assignId: int, userId: Option<int>)
    ensures "userid" in Keys(Encode(token, GetSubmissionStatus(assignId, userId)).params) <==> userId.Some?
  {
    var call := GetSubmissionStatus(assignId, userId);
    KeysOfForm(token, call);
    var sk := Keys(SpecificParams(call));
    if userId.Some? {
      assert sk[1] == "userid";
    } else {
      assert sk == ["assignid"];
      assert "userid" !in ["moodlewsrestformat", "wsfunction", "wstoken"];
      assert "userid" !in ["moodlewssettingfilter", "moodlewssettingfileurl", "moodlewssettinglang"];
    }
  }

  /** The file-manager field of a save request is present exactly when a file-manager id is given. */
  lemma FileManagerPresentIffGiven(token: string, assignmentId: int, fileManagerId: Option<int>)
    ensures "plugindata[files_filemanager]" in Keys(Encode(token, SaveSubmission(assignmentId, fileManagerId)).params)
      <==> fileManagerId.Some?
  {
    var call := SaveSubmission(assignmentId, fileManagerId);
    KeysOfForm(token, call);
    var sk := Keys(SpecificParams(call));
    if fileManagerId.Some? {
      assert sk[1] == "plugindata[files_filemanager]";
    } else {
      assert sk == ["assignmentid"];
      assert "plugindata[files_filemanager]" !in ["moodlewsrestformat", "wsfunction", "wstoken"];
      assert "plugindata[files_filemanager]" !in ["moodlewssettingfilter", "moodlewssettingfileurl", "moodlewssettinglang"];
    }
  }

  /** The save request: control fields, assignment id, the optional file-manager id, then settings true/true/ja. */
  lemma SaveSubmissionLayout(token: string, assignmentId: int, fileManagerId: Option<int>)
    ensures var ps := Encode(token, SaveSubmission(assignmentId, fileManagerId)).params;
      ps == BaseParameters(token, "mod_assign_save_submission")
        + [Param("assignmentid", IntText(assignmentId))]
        + (if fileManagerId.Some? then [Param("plugindata[files_filemanager]", IntText(fileManagerId.value))] else [])
        + [Param("moodlewssettingfilter", "true"), Param("moodlewssettingfileurl", "true"), Param("moodlewssettinglang", "ja")]
  {
  }

  /** The upload goes to the upload endpoint as token, `filearea=draft`, `itemid=0`, then the file part. */
  lemma UploadLayout(token: string, content: seq<byte>, fileName: string)
    ensures var req := Encode(token, UploadFile(content, fileName));
      && req.MultipartPost? && req.url == UploadEndpoint
      && |req.parts| == 4
      && req.parts[0] == TextPart("token", token)
      && req.parts[1] == TextPart("filearea", "draft")
      && req.parts[2] == TextPart("itemid", "0")
      && req.parts[3].FilePart? && req.parts[3].content == content
  {
  }

  // ---------------------------------------------------------------------------
  // The save-submission response body
  // ---------------------------------------------------------------------------

  /** `saveSubmission`'s reading of the raw body: no warnings when the trimmed body is `[]`, else the untrimmed body as the single warning. */
  function ClassifySaveBody(body: string): (warnings: seq<string>)
    ensures warnings == [] || warnings == [body]
  {
    if Trim(body) == "[]" then [] else [body]
  }

  /** No warnings exactly when the body is `[]` surrounded by nothing but whitespace. */
  lemma NoWarningsIffBracketsOnly(body: string)
    ensures ClassifySaveBody(body) == [] <==>
      exists p, q :: AllWhitespace(p) && AllWhitespace(q) && body == p + "[]" + q
  {
    if ClassifySaveBody(body) == [] {
      TrimRemovesOnlyWhitespace(body);
    }
    if exists p, q :: AllWhitespace(p) && AllWhitespace(q) && body == p + "[]" + q {
      var p, q :| AllWhitespace(p) && AllWhitespace(q) && body == p + "[]" + q;
      TrimOfPadded(p, "[]", q);
    }
  }

  /** Examples: a padded `[]` is success; an empty array written with a space inside, or any other text, is a warning. */
  lemma SaveBodyExamples()
    ensures ClassifySaveBody(" []\n") == []
    ensures ClassifySaveBody("[ ]") == ["[ ]"]
    ensures ClassifySaveBody("") == [""]
  {
    var padded := " " + "[]" + "\n";
    assert AllWhitespace(" ") && AllWhitespace("\n");
    TrimOfPadded(" ", "[]", "\n");
    assert |padded| == 4 && padded[0] == ' ' && padded[1] == '[' && padded[2] == ']' && padded[3] == '\n';
    assert padded == " []\n";
    TrimOfPadded("", "[ ]", "");
    assert "" + "[ ]" + "" == "[ ]";
  }
}
