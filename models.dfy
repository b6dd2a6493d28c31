/**
 * The entities of the coverage tracker, their content-derived identifiers and
 * the field shape rules that run before a record is built.
 *
 * Every entity's `uuid` is filled in by an "autofill" step when the caller did
 * not supply one: the digest of the plain concatenation of its key fields.
 * Field rules are checked afterwards, on the filled-in values.
 */
module Models {
  import opened Wrappers

  /** The failures the core distinguishes. */
  datatype Error =
    | NotFound          // a referenced record is absent
    | AlreadyExists     // the store already holds a record under that id
    | ValidationError   // a field does not have the required shape
    | IndexError        // `[0]` on an empty query result
    | EmptySequence     // `min` over no values

  const DigestLength: nat := 32
  const ShaLength: nat := 40
  const MinIdLength: nat := 24
  const MaxIdLength: nat := 32

  /**
   * A digest function, standing for the md5 hexdigest of the UTF-8 bytes of a
   * string. Only what the model relies on is fixed: the result is always 32
   * characters long.
   */
  type Hasher = h: string -> string | forall s :: |h(s)| == DigestLength
    witness (s: string) => seq(DigestLength, i => '0')

  /**
   * The absolute-URL validator: None rejects the text, Some(u) gives the
   * normalised text that the record stores.
   */
  type UrlParser = string -> Option<string>

  /** Shape of a commit hash. */
  predicate IsSha(s: string): (b: bool)
    ensures b ==> !IsId(s)
  {
    |s| == ShaLength
  }

  /** Shape of an id or a reference to one. */
  predicate IsId(s: string): (b: bool)
    ensures b ==> 0 < |s| < ShaLength
  {
    MinIdLength <= |s| <= MaxIdLength
  }

  /** The uuid field may be left out; when it is given it must be an id. */
  predicate IsOptionalId(uuid: Option<string>) { uuid.None? || IsId(uuid.value) }

  // ---------------------------------------------------------------------------
  // Timestamps

  /** The UTC offset. */
  const Utc: Option<int> := Some(0)

  /**
   * A timestamp: its wall-clock reading in milliseconds from an epoch, the
   * precision the document store keeps, and, when it is timezone-aware, its
   * UTC offset in milliseconds (None for a naive value).
   */
  datatype DateTime = DateTime(stamp: int, offset: Option<int>) {
    /** `replace(tzinfo=...)`: builds a new value and leaves the receiver as it is. */
    function Replace(tz: Option<int>): (r: DateTime)
      ensures r.stamp == stamp && r.offset == tz
    {
      DateTime(stamp, tz)
    }

    /**
     * The UTC instant the document store keeps and sorts by: an aware value
     * is shifted back by its offset, a naive value is read as UTC.
     */
    function Instant(): (t: int)
      ensures offset.None? || offset == Utc ==> t == stamp
    {
      if offset.Some? then stamp - offset.value else stamp
    }
  }

  /** Between timestamps with one offset, the instants order as the wall-clock readings do. */
  lemma SameOffsetSameOrder(a: DateTime, b: DateTime)
    requires a.offset == b.offset
    ensures a.Instant() <= b.Instant() <==> a.stamp <= b.stamp
  {
  }

  /** 10:00+02:00 is earlier than 09:00+00:00, although its clock reads later. */
  lemma OffsetDecidesOrder()
    ensures DateTime(36_000_000, Some(7_200_000)).Instant() < DateTime(32_400_000, Some(0)).Instant()
    ensures DateTime(36_000_000, Some(7_200_000)).stamp > DateTime(32_400_000, Some(0)).stamp
  {
  }

  /**
   * The timestamp normaliser applied to every timestamp field. For a naive
   * value it builds the UTC-aware copy and drops it, so the value that comes
   * back is the one that came in.
   */
  function FixDttm(d: DateTime): (r: DateTime)
    ensures r.offset == d.offset && r.Instant() == d.Instant()
  {
    var dropped := if d.offset.None? then d.Replace(Utc) else d;
    d
  }

  /** A naive timestamp stays naive, and no timestamp's clock value moves. */
  lemma NaiveStaysNaive(d: DateTime)
    ensures FixDttm(d).offset == d.offset
    ensures FixDttm(d).stamp == d.stamp
    ensures d.offset.None? ==> FixDttm(d).offset.None?
  {
  }

  // ---------------------------------------------------------------------------
  // Entities

  datatype User = User(uuid: string, name: string, password: string, email: Option<string>)

  datatype Project = Project(uuid: string, name: string, url: string)

  datatype Commit = Commit(uuid: string, projectId: string, branch: string, sha: string, dttm: DateTime)

  datatype Report = Report(uuid: string, commitId: string, branch: string, jobName: string, coverage: real)

  /** Membership of a user in a project. */
  datatype UserXProject = UserXProject(uuid: string, userId: string, projectId: string)

  /** A job submission: one coverage measurement of one job on one commit. */
  datatype NewJob = NewJob(
    projectId: string,
    branch: string,
    commitSha: string,
    commitDttm: DateTime,
    jobName: string,
    coverage: real)
  {
    predicate Valid() { IsId(projectId) && IsSha(commitSha) }
  }

  // ---------------------------------------------------------------------------
  // Identity: the key each entity's digest is taken over

  function UserKey(name: string): string { name }
  function ProjectKey(name: string, url: string): string { name + url }
  function CommitKey(projectId: string, sha: string): string { projectId + sha }
  function ReportKey(commitId: string, jobName: string): string { commitId + jobName }
  function MembershipKey(userId: string, projectId: string): string { userId + projectId }

  /** The autofill step: a supplied id is kept as it is; otherwise the digest of the key is used. */
  function Autofill(h: Hasher, uuid: Option<string>, key: string): (id: string)
    ensures uuid.Some? ==> id == uuid.value
    ensures uuid.None? ==> id == h(key) && IsId(id)
  {
    if uuid.Some? then uuid.value else h(key)
  }

  // ---------------------------------------------------------------------------
  // Validated construction: autofill first, then the field rules

  function MakeUser(h: Hasher, uuid: Option<string>, name: string, password: string, email: Option<string>)
    : (r: Result<User, Error>)
    ensures r.Success? <==> IsOptionalId(uuid)
    ensures r.Failure? ==> r.error == ValidationError
    ensures r.Success? ==> r.value.uuid == Autofill(h, uuid, UserKey(name)) && IsId(r.value.uuid)
    ensures r.Success? ==> r.value.name == name && r.value.password == password && r.value.email == email
  {
    var id := Autofill(h, uuid, UserKey(name));
    if IsId(id) then Success(User(id, name, password, email)) else Failure(ValidationError)
  }

  /**
   * The id is taken over the URL as submitted, while the record keeps the
   * normalised URL: autofill runs before the URL field is validated.
   */
  function MakeProject(h: Hasher, parseUrl: UrlParser, uuid: Option<string>, name: string, url: string)
    : (r: Result<Project, Error>)
    ensures r.Success? <==> IsOptionalId(uuid) && parseUrl(url).Some?
    ensures r.Failure? ==> r.error == ValidationError
    ensures r.Success? ==> r.value.uuid == Autofill(h, uuid, ProjectKey(name, url)) && IsId(r.value.uuid)
    ensures r.Success? ==> r.value.name == name && Some(r.value.url) == parseUrl(url)
  {
    var id := Autofill(h, uuid, ProjectKey(name, url));
    var parsed := parseUrl(url);
    if IsId(id) && parsed.Some? then Success(Project(id, name, parsed.value)) else Failure(ValidationError)
  }

  function MakeCommit(h: Hasher, uuid: Option<string>, projectId: string, branch: string, sha: string, dttm: DateTime)
    : (r: Result<Commit, Error>)
    ensures r.Success? <==> IsOptionalId(uuid) && IsId(projectId) && IsSha(sha)
    ensures r.Failure? ==> r.error == ValidationError
    ensures r.Success? ==> r.value.uuid == Autofill(h, uuid, CommitKey(projectId, sha)) && IsId(r.value.uuid)
    ensures r.Success? ==> r.value.projectId == projectId && r.value.branch == branch && r.value.sha == sha
    ensures r.Success? ==> r.value.dttm == FixDttm(dttm) && r.value.dttm.offset == dttm.offset
  {
    var id := Autofill(h, uuid, CommitKey(projectId, sha));
    if IsId(id) && IsId(projectId) && IsSha(sha) then
      Success(Commit(id, projectId, branch, sha, FixDttm(dttm)))
    else
      Failure(ValidationError)
  }

  function MakeReport(h: Hasher, uuid: Option<string>, commitId: string, branch: string, jobName: string, coverage: real)
    : (r: Result<Report, Error>)
    ensures r.Success? <==> IsOptionalId(uuid) && IsId(commitId)
    ensures r.Failure? ==> r.error == ValidationError
    ensures r.Success? ==> r.value.uuid == Autofill(h, uuid, ReportKey(commitId, jobName)) && IsId(r.value.uuid)
    ensures r.Success? ==> r.value.commitId == commitId && r.value.branch == branch
    ensures r.Success? ==> r.value.jobName == jobName && r.value.coverage == coverage
  {
    var id := Autofill(h, uuid, ReportKey(commitId, jobName));
    if IsId(id) && IsId(commitId) then
      Success(Report(id, commitId, branch, jobName, coverage))
    else
      Failure(ValidationError)
  }

  function MakeMembership(h: Hasher, uuid: Option<string>, userId: string, projectId: string)
    : (r: Result<UserXProject, Error>)
    ensures r.Success? <==> IsOptionalId(uuid) && IsId(userId) && IsId(projectId)
    ensures r.Failure? ==> r.error == ValidationError
    ensures r.Success? ==> r.value.uuid == Autofill(h, uuid, MembershipKey(userId, projectId)) && IsId(r.value.uuid)
    ensures r.Success? ==> r.value.userId == userId && r.value.projectId == projectId
  {
    var id := Autofill(h, uuid, MembershipKey(userId, projectId));
    if IsId(id) && IsId(userId) && IsId(projectId) then
      Success(UserXProject(id, userId, projectId))
    else
      Failure(ValidationError)
  }

  /** Validation of a submitted job, before the ingestion workflow sees it. */
  function ParseJob(projectId: string, branch: string, commitSha: string, commitDttm: DateTime, jobName: string, coverage: real)
    : (r: Result<NewJob, Error>)
    ensures r.Success? <==> IsId(projectId) && IsSha(commitSha)
    ensures r.Failure? ==> r.error == ValidationError
    ensures r.Success? ==> r.value.Valid()
    ensures r.Success? ==> r.value == NewJob(projectId, branch, commitSha, FixDttm(commitDttm), jobName, coverage)
  {
    if IsId(projectId) && IsSha(commitSha) then
      Success(NewJob(projectId, branch, commitSha, FixDttm(commitDttm), jobName, coverage))
    else
      Failure(ValidationError)
  }

  // ---------------------------------------------------------------------------
  // Properties of identity

  /** A commit's derived id depends on its project and sha only, not on its branch or timestamp. */
  lemma CommitIdIgnoresBranchAndTime(h: Hasher, projectId: string, sha: string,
                                     branch1: string, dttm1: DateTime, branch2: string, dttm2: DateTime)
    requires MakeCommit(h, None, projectId, branch1, sha, dttm1).Success?
    ensures MakeCommit(h, None, projectId, branch2, sha, dttm2).Success?
    ensures MakeCommit(h, None, projectId, branch1, sha, dttm1).value.uuid
         == MakeCommit(h, None, projectId, branch2, sha, dttm2).value.uuid
  {
  }

  /** A report's derived id depends on its commit and job only: a repeated (commit, job) collides. */
  lemma ReportIdIgnoresBranchAndCoverage(h: Hasher, commitId: string, jobName: string,
                                         branch1: string, coverage1: real, branch2: string, coverage2: real)
    requires MakeReport(h, None, commitId, branch1, jobName, coverage1).Success?
    ensures MakeReport(h, None, commitId, branch2, jobName, coverage2).Success?
    ensures MakeReport(h, None, commitId, branch1, jobName, coverage1).value.uuid
         == MakeReport(h, None, commitId, branch2, jobName, coverage2).value.uuid
  {
  }

  /**
   * Project ids are digests of the bare concatenation `name + url`: any two
   * submissions whose concatenations agree get the same id.
   */
  lemma ProjectIdOfConcatenation(h: Hasher, parseUrl: UrlParser, name1: string, url1: string, name2: string, url2: string)
    requires MakeProject(h, parseUrl, None, name1, url1).Success?
    requires MakeProject(h, parseUrl, None, name2, url2).Success?
    requires name1 + url1 == name2 + url2
    ensures MakeProject(h, parseUrl, None, name1, url1).value.uuid == MakeProject(h, parseUrl, None, name2, url2).value.uuid
  {
  }

  /** With no separator, two different (name, url) pairs can share a key, and so an id. */
  lemma ProjectKeyAmbiguous()
    ensures ("n", "http://a.com/http://b.com") != ("nhttp://a.com/", "http://b.com")
    ensures ProjectKey("n", "http://a.com/http://b.com") == ProjectKey("nhttp://a.com/", "http://b.com")
  {
  }

  /** Splitting a concatenation at a known length gives back both parts. */
  lemma {:induction false} SplitAtLength(a: string, b: string, c: string, d: string)
    requires a + b == c + d && |a| == |c|
    ensures a == c && b == d
  {
    assert a == (a + b)[..|a|];
    assert c == (c + d)[..|c|];
    assert b == (a + b)[|a|..];
    assert d == (c + d)[|c|..];
  }

  /** The commit key is unambiguous: the sha has a fixed length, so the project id is everything before it. */
  lemma CommitKeyInjective(projectId1: string, sha1: string, projectId2: string, sha2: string)
    requires IsSha(sha1) && IsSha(sha2)
    requires CommitKey(projectId1, sha1) == CommitKey(projectId2, sha2)
    ensures projectId1 == projectId2 && sha1 == sha2
  {
    assert |projectId1| == |projectId2| by {
      assert |projectId1 + sha1| == |projectId2 + sha2|;
    }
    SplitAtLength(projectId1, sha1, projectId2, sha2);
  }

  /** Report keys over derived commit ids (all of one length) are unambiguous. */
  lemma ReportKeyInjective(commitId1: string, jobName1: string, commitId2: string, jobName2: string)
    requires |commitId1| == |commitId2|
    requires ReportKey(commitId1, jobName1) == ReportKey(commitId2, jobName2)
    ensures commitId1 == commitId2 && jobName1 == jobName2
  {
    SplitAtLength(commitId1, jobName1, commitId2, jobName2);
  }

  /** Membership keys over ids of one length are unambiguous. */
  lemma MembershipKeyInjective(userId1: string, projectId1: string, userId2: string, projectId2: string)
    requires |userId1| == |userId2|
    requires MembershipKey(userId1, projectId1) == MembershipKey(userId2, projectId2)
    ensures userId1 == userId2 && projectId1 == projectId2
  {
    SplitAtLength(userId1, projectId1, userId2, projectId2);
  }
}
