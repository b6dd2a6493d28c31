/**
 * The document store and the repository operations over it.
 *
 * The store holds one collection per entity, each a map from a record's id
 * to the record. Inserting an id already present is refused, as the
 * store's duplicate-key check does; nothing else enforces references, so
 * the repository operations look up what a record refers to before they
 * insert it.
 */
module Db {
  import opened Wrappers
  import opened Models

  // ---------------------------------------------------------------------------
  // Query primitives of the document store

  /** The size of a limit: a negative limit caps the result like a positive one. */
  function Magnitude(limit: int): nat { if limit < 0 then -limit else limit }

  /** How many records a query yields from `n` matches under `limit`; 0 means no limit. */
  function Limited(n: nat, limit: int): (count: nat)
    ensures count <= n
    ensures limit == 0 || n <= Magnitude(limit) ==> count == n
    ensures limit != 0 && Magnitude(limit) < n ==> count == Magnitude(limit)
  {
    if limit == 0 || n <= Magnitude(limit) then n else Magnitude(limit)
  }

  /** The ids of the records in `m` that the selector `keep` accepts. */
  ghost function Matching<V>(m: map<string, V>, keep: V -> bool): set<string>
  {
    set k | k in m && keep(m[k])
  }

  lemma SubsetSize<T>(a: set<T>, b: set<T>)
    requires a <= b
    ensures |a| <= |b|
    ensures |a| == |b| ==> a == b
  {
    assert b == a + (b - a);
    if |a| == |b| {
      assert b - a == {};
    }
  }

  /** No id is listed twice. */
  predicate Distinct(keys: seq<string>)
  {
    forall i, j :: 0 <= i < j < |keys| ==> keys[i] != keys[j]
  }

  /**
   * `find(selector).limit(limit)`: one record per matching id, as many as the
   * limit lets through; when the limit does not cut the result short, every
   * matching record is there. The order is the store's and is left open;
   * `keys` names the id each record was found under.
   */
  method Find<V(==)>(m: map<string, V>, keep: V -> bool, limit: int) returns (found: seq<V>, ghost keys: seq<string>)
    ensures |found| == Limited(|Matching(m, keep)|, limit)
    ensures |keys| == |found| && Distinct(keys)
    ensures forall i :: 0 <= i < |keys| ==> keys[i] in m && keep(m[keys[i]]) && found[i] == m[keys[i]]
    ensures forall v :: v in found ==> v in m.Values && keep(v)
    ensures limit == 0 || |Matching(m, keep)| <= Magnitude(limit) ==>
              forall k :: k in Matching(m, keep) ==> k in keys && m[k] in found
  {
    found, keys := [], [];
    var rest := m.Keys;
    ghost var picked: set<string> := {};
    while rest != {} && (limit == 0 || |found| < Magnitude(limit))
      invariant rest <= m.Keys
      invariant picked == set k | k in m.Keys - rest && keep(m[k])
      invariant |keys| == |found| == |picked| && Distinct(keys)
      invariant forall i :: 0 <= i < |keys| ==> keys[i] in picked && found[i] == m[keys[i]]
      invariant forall k :: k in picked ==> k in keys
      invariant limit != 0 ==> |found| <= Magnitude(limit)
      decreases rest
    {
      var k :| k in rest;
      if keep(m[k]) {
        found, keys := found + [m[k]], keys + [k];
        picked := picked + {k};
      }
      rest := rest - {k};
    }
    SubsetSize(picked, Matching(m, keep));
    if rest == {} {
      assert picked == Matching(m, keep);
    }
    forall v | v in found ensures v in m.Values && keep(v) {
      var i :| 0 <= i < |found| && found[i] == v;
    }
    forall k | k in picked ensures m[k] in found {
      var i :| 0 <= i < |keys| && keys[i] == k;
    }
  }

  /**
   * `.sort([("dttm", -1)]).limit(1)[0]`: a commit whose UTC instant is the
   * latest, or IndexError when there is none.
   */
  method FirstByNewest(cs: seq<Commit>) returns (r: Result<Commit, Error>)
    ensures r.Failure? <==> cs == []
    ensures r.Failure? ==> r.error == IndexError
    ensures r.Success? ==> r.value in cs
    ensures r.Success? ==> forall c :: c in cs ==> c.dttm.Instant() <= r.value.dttm.Instant()
  {
    if |cs| == 0 {
      return Failure(IndexError);
    }
    var newest := cs[0];
    for i := 1 to |cs|
      invariant newest in cs[..i]
      invariant forall j :: 0 <= j < i ==> cs[j].dttm.Instant() <= newest.dttm.Instant()
    {
      if cs[i].dttm.Instant() > newest.dttm.Instant() {
        newest := cs[i];
      }
    }
    assert cs[..|cs|] == cs;
    r := Success(newest);
  }

  /** The commit selector of the latest-commit query: the branch filter applies only to a non-empty name. */
  predicate Selects(projectId: string, branch: Option<string>, c: Commit): (r: bool)
    ensures branch.None? || branch.value == "" ==> (r <==> c.projectId == projectId)
    ensures r ==> c.projectId == projectId
  {
    c.projectId == projectId && (branch.None? || branch.value == "" || c.branch == branch.value)
  }

  // ---------------------------------------------------------------------------
  // Integrity of the collections, and the deletions of the cascade

  /**
   * Every record is filed under its own uuid, every commit's project is
   * present and every report's commit is present. Memberships are held to
   * the first rule only: deleting a user or a project leaves them in place.
   */
  ghost predicate Consistent(projects: map<string, Project>, commits: map<string, Commit>,
                             reports: map<string, Report>, users: map<string, User>,
                             memberships: map<string, UserXProject>)
  {
    && (forall k :: k in projects ==> projects[k].uuid == k)
    && (forall k :: k in commits ==> commits[k].uuid == k)
    && (forall k :: k in reports ==> reports[k].uuid == k)
    && (forall k :: k in users ==> users[k].uuid == k)
    && (forall k :: k in memberships ==> memberships[k].uuid == k)
    && (forall k :: k in commits ==> commits[k].projectId in projects)
    && (forall k :: k in reports ==> reports[k].commitId in commits)
  }

  /** Uuids of the commits filed for a project. */
  ghost function CommitIdsIn(commits: map<string, Commit>, projectId: string): set<string>
  {
    set k | k in commits && commits[k].projectId == projectId :: commits[k].uuid
  }

  /** Deletes every commit of a project and keeps every other commit as it was. */
  function DropCommitsOf(commits: map<string, Commit>, projectId: string): (r: map<string, Commit>)
    ensures forall k :: k in r ==> k in commits && r[k] == commits[k]
    ensures forall k :: k in r ==> r[k].projectId != projectId
    ensures forall k :: k in commits && commits[k].projectId != projectId ==> k in r
  {
    map k | k in commits && commits[k].projectId != projectId :: commits[k]
  }

  /** Deletes every report on one of the given commits and keeps every other report as it was. */
  function DropReportsOf(reports: map<string, Report>, commitIds: set<string>): (r: map<string, Report>)
    ensures forall k :: k in r ==> k in reports && r[k] == reports[k]
    ensures forall k :: k in r ==> r[k].commitId !in commitIds
    ensures forall k :: k in reports && reports[k].commitId !in commitIds ==> k in r
  {
    map k | k in reports && reports[k].commitId !in commitIds :: reports[k]
  }

  /**
   * The cascade leaves no orphans: after the three deletions the collections
   * are consistent again, and the reports of other projects' commits remain.
   */
  lemma CascadeKeepsConsistent(projects: map<string, Project>, commits: map<string, Commit>,
                               reports: map<string, Report>, users: map<string, User>,
                               memberships: map<string, UserXProject>, projectId: string)
    requires Consistent(projects, commits, reports, users, memberships)
    ensures Consistent(projects - {projectId}, DropCommitsOf(commits, projectId),
                       DropReportsOf(reports, CommitIdsIn(commits, projectId)), users, memberships)
    ensures forall k :: k in reports && commits[reports[k].commitId].projectId != projectId ==>
                          k in DropReportsOf(reports, CommitIdsIn(commits, projectId))
  {
    var ids := CommitIdsIn(commits, projectId);
    var commits' := DropCommitsOf(commits, projectId);
    var reports' := DropReportsOf(reports, ids);
    forall k | k in reports'
      ensures reports'[k].commitId in commits'
    {
      var c := reports'[k].commitId;
      assert commits[c].uuid == c;
    }
  }

  /** Consistency does not depend on which memberships exist, only on how each is filed. */
  lemma MembershipsRefiled(projects: map<string, Project>, commits: map<string, Commit>,
                           reports: map<string, Report>, users: map<string, User>,
                           memberships: map<string, UserXProject>, memberships': map<string, UserXProject>)
    requires Consistent(projects, commits, reports, users, memberships)
    requires forall k :: k in memberships' ==> memberships'[k].uuid == k
    ensures Consistent(projects, commits, reports, users, memberships')
  {
  }

  /** The fallback lookup of a membership by its (user, project) pair. */
  predicate HasPair(memberships: map<string, UserXProject>, userId: string, projectId: string): (b: bool)
    ensures (forall k :: k in memberships ==> memberships[k] != UserXProject(k, userId, projectId)) || b
  {
    exists k :: k in memberships && memberships[k].userId == userId && memberships[k].projectId == projectId
  }

  // ---------------------------------------------------------------------------
  // The repository

  class Store {
    const hash: Hasher
    var projects: map<string, Project>
    var commits: map<string, Commit>
    var reports: map<string, Report>
    var users: map<string, User>
    var userXProject: map<string, UserXProject>

    /** The collections are Consistent. */
    ghost predicate Valid()
      reads this
    {
      Consistent(projects, commits, reports, users, userXProject)
    }

    constructor (hash: Hasher)
      ensures Valid() && this.hash == hash
      ensures projects == map[] && commits == map[] && reports == map[]
      ensures users == map[] && userXProject == map[]
    {
      this.hash := hash;
      projects, commits, reports := map[], map[], map[];
      users, userXProject := map[], map[];
    }

    // ==== Project ====

    method SaveProject(project: Project) returns (r: Result<Project, Error>)
      modifies this
      ensures old(Valid()) ==> Valid()
      ensures r.Success? <==> project.uuid !in old(projects)
      ensures r.Success? ==> r.value == project && projects == old(projects)[project.uuid := project]
      ensures r.Failure? ==> r.error == AlreadyExists && projects == old(projects)
      ensures (commits, reports, users, userXProject) == old((commits, reports, users, userXProject))
    {
      if project.uuid in projects {
        return Failure(AlreadyExists);
      }
      projects := projects[project.uuid := project];
      r := Success(project);
    }

    function GetProject(projectId: string): (r: Result<Project, Error>)
      reads this
      ensures r.Success? <==> projectId in projects
      ensures r.Success? ==> r.value == projects[projectId]
      ensures r.Failure? ==> r.error == NotFound
    {
      if projectId in projects then Success(projects[projectId]) else Failure(NotFound)
    }

    /** Up to `limit` projects (0: all of them), each stored project at most once; `keys` names their ids. */
    method ListProjects(limit: int) returns (found: seq<Project>, ghost keys: seq<string>)
      ensures |found| == Limited(|projects|, limit)
      ensures |keys| == |found| && Distinct(keys)
      ensures forall i :: 0 <= i < |keys| ==> keys[i] in projects && found[i] == projects[keys[i]]
      ensures forall p :: p in found ==> p in projects.Values
      ensures limit == 0 || |projects| <= Magnitude(limit) ==>
                forall k :: k in projects ==> k in keys && projects[k] in found
    {
      found, keys := Find(projects, (p: Project) => true, limit);
      assert Matching(projects, (p: Project) => true) == projects.Keys;
    }

    /**
     * Cascading delete: the reports of the project's commits, then its
     * commits, then the project. An absent project fails before anything is
     * deleted.
     */
    method DeleteProject(projectId: string) returns (r: Result<bool, Error>)
      modifies this
      ensures old(Valid()) ==> Valid()
      ensures projectId !in old(projects) ==> r == Failure(NotFound)
      ensures projectId !in old(projects) ==>
                (projects, commits, reports) == old((projects, commits, reports))
      ensures projectId in old(projects) ==> r == Success(true)
      ensures projectId in old(projects) ==> projects == old(projects) - {projectId}
      ensures projectId in old(projects) ==> commits == DropCommitsOf(old(commits), projectId)
      ensures projectId in old(projects) ==>
                reports == DropReportsOf(old(reports), CommitIdsIn(old(commits), projectId))
      ensures old(Valid()) ==> forall k :: k in old(reports) && old(commits)[old(reports)[k].commitId].projectId != projectId ==>
                                 k in reports && reports[k] == old(reports)[k]
      ensures (users, userXProject) == old((users, userXProject))
    {
      var listed := GetProjectCommits(projectId);
      if listed.Failure? {
        return Failure(listed.error);
      }
      ghost var before := (projects, commits, reports);
      var ids := set c | c in listed.value :: c.uuid;
      assert ids == CommitIdsIn(commits, projectId) by {
        forall x | x in CommitIdsIn(commits, projectId) ensures x in ids {
          var k :| k in commits && commits[k].projectId == projectId && commits[k].uuid == x;
          assert commits[k] in commits.Values;
        }
      }
      reports := DropReportsOf(reports, ids);
      commits := DropCommitsOf(commits, projectId);
      var deleted := projectId in projects;
      projects := projects - {projectId};
      r := Success(deleted);
      if Consistent(before.0, before.1, before.2, users, userXProject) {
        CascadeKeepsConsistent(before.0, before.1, before.2, users, userXProject, projectId);
      }
    }

    // ==== Commit ====

    method SaveCommit(commit: Commit) returns (r: Result<Commit, Error>)
      modifies this
      ensures old(Valid()) ==> Valid()
      ensures r.Success? <==> commit.projectId in old(projects) && commit.uuid !in old(commits)
      ensures r.Success? ==> r.value == commit && commits == old(commits)[commit.uuid := commit]
      ensures r.Failure? ==> commits == old(commits)
      ensures r.Failure? ==> r.error == if commit.projectId !in old(projects) then NotFound else AlreadyExists
      ensures (projects, reports, users, userXProject) == old((projects, reports, users, userXProject))
    {
      var project := GetProject(commit.projectId);
      if project.Failure? {
        return Failure(project.error);
      }
      if commit.uuid in commits {
        return Failure(AlreadyExists);
      }
      commits := commits[commit.uuid := commit];
      r := Success(commit);
    }

    /** Ids of the commits filed for a project. */
    ghost function CommitKeysOf(projectId: string): set<string>
      reads this
    {
      set k | k in commits && commits[k].projectId == projectId
    }

    method GetProjectCommits(projectId: string) returns (r: Result<seq<Commit>, Error>)
      ensures r.Success? <==> projectId in projects
      ensures r.Failure? ==> r.error == NotFound
      ensures r.Success? ==> forall c :: c in r.value <==> c in commits.Values && c.projectId == projectId
      ensures r.Success? ==> |r.value| == |CommitKeysOf(projectId)|
    {
      var project := GetProject(projectId);
      if project.Failure? {
        return Failure(project.error);
      }
      var keep := (c: Commit) => c.projectId == projectId;
      var found, keys := Find(commits, keep, 0);
      assert Matching(commits, keep) == CommitKeysOf(projectId);
      forall c | c in commits.Values && c.projectId == projectId ensures c in found {
        var k :| k in commits && commits[k] == c;
        assert k in Matching(commits, keep);
      }
      r := Success(found);
    }

    function GetCommit(commitId: string, doRaise: bool): (r: Result<Option<Commit>, Error>)
      reads this
      ensures r.Failure? <==> commitId !in commits && doRaise
      ensures r.Failure? ==> r.error == NotFound
      ensures r.Success? ==> (r.value.Some? <==> commitId in commits)
      ensures r.Success? && r.value.Some? ==> r.value.value == commits[commitId]
    {
      if commitId in commits then Success(Some(commits[commitId]))
      else if doRaise then Failure(NotFound)
      else Success(None)
    }

    /** Some commit matches the latest-commit selector. */
    ghost predicate HasCandidate(projectId: string, branch: Option<string>)
      reads this
    {
      exists k :: k in commits && Selects(projectId, branch, commits[k])
    }

    /** `c` is a stored commit the selector accepts, and no accepted commit has a later UTC instant. */
    ghost predicate IsLastCommit(projectId: string, branch: Option<string>, c: Commit)
      reads this
    {
      && c in commits.Values
      && Selects(projectId, branch, c)
      && forall k :: k in commits && Selects(projectId, branch, commits[k]) ==> commits[k].dttm.Instant() <= c.dttm.Instant()
    }

    /**
     * Of a commit at 10:00+02:00 and one at 09:00+00:00, the second is the
     * latest: the order is by UTC instant, not by clock reading.
     */
    lemma LatestIsByInstant(projectId: string, a: Commit, b: Commit)
      requires a.uuid != b.uuid && a.projectId == projectId && b.projectId == projectId
      requires a.dttm == DateTime(36_000_000, Some(7_200_000)) && b.dttm == DateTime(32_400_000, Some(0))
      requires commits == map[a.uuid := a, b.uuid := b]
      ensures IsLastCommit(projectId, None, b)
      ensures !IsLastCommit(projectId, None, a)
    {
      assert commits[b.uuid] == b;
      assert commits[a.uuid] == a;
    }

    method GetLastCommit(projectId: string, branch: Option<string>) returns (r: Result<Commit, Error>)
      ensures projectId !in projects ==> r == Failure(NotFound)
      ensures projectId in projects ==> (r.Success? <==> HasCandidate(projectId, branch))
      ensures projectId in projects && r.Failure? ==> r.error == IndexError
      ensures r.Success? ==> IsLastCommit(projectId, branch, r.value)
    {
      var project := GetProject(projectId);
      if project.Failure? {
        return Failure(project.error);
      }
      var keep := (c: Commit) => Selects(projectId, branch, c);
      var candidates, keys := Find(commits, keep, 0);
      r := FirstByNewest(candidates);
      if HasCandidate(projectId, branch) {
        var k :| k in commits && Selects(projectId, branch, commits[k]);
        assert k in Matching(commits, keep);
        assert commits[k] in candidates;
      }
      if r.Success? {
        forall k | k in commits && Selects(projectId, branch, commits[k])
          ensures commits[k].dttm.Instant() <= r.value.dttm.Instant()
        {
          assert k in Matching(commits, keep);
        }
      }
    }

    // ==== Report ====

    method SaveReport(report: Report) returns (r: Result<Report, Error>)
      modifies this
      ensures old(Valid()) ==> Valid()
      ensures r.Success? <==> report.commitId in old(commits) && report.uuid !in old(reports)
      ensures r.Success? ==> r.value == report && reports == old(reports)[report.uuid := report]
      ensures r.Failure? ==> reports == old(reports)
      ensures r.Failure? ==> r.error == if report.commitId !in old(commits) then NotFound else AlreadyExists
      ensures (projects, commits, users, userXProject) == old((projects, commits, users, userXProject))
    {
      var commit := GetCommit(report.commitId, true);
      if commit.Failure? {
        return Failure(commit.error);
      }
      if report.uuid in reports {
        return Failure(AlreadyExists);
      }
      reports := reports[report.uuid := report];
      r := Success(report);
    }

    /** Ids of the reports recorded for a commit. */
    ghost function ReportKeysOf(commitId: string): set<string>
      reads this
    {
      set k | k in reports && reports[k].commitId == commitId
    }

    method GetReports(commitId: string) returns (r: Result<seq<Report>, Error>)
      ensures r.Success? <==> commitId in commits
      ensures r.Failure? ==> r.error == NotFound
      ensures r.Success? ==> forall x :: x in r.value <==> x in reports.Values && x.commitId == commitId
      ensures r.Success? ==> |r.value| == |ReportKeysOf(commitId)|
    {
      var commit := GetCommit(commitId, true);
      if commit.Failure? {
        return Failure(commit.error);
      }
      var keep := (x: Report) => x.commitId == commitId;
      var found, keys := Find(reports, keep, 0);
      assert Matching(reports, keep) == ReportKeysOf(commitId);
      forall x | x in reports.Values && x.commitId == commitId ensures x in found {
        var k :| k in reports && reports[k] == x;
        assert k in Matching(reports, keep);
      }
      r := Success(found);
    }

    // ==== User ====

    function GetUser(userId: string): (r: Result<User, Error>)
      reads this
      ensures r.Success? <==> userId in users
      ensures r.Success? ==> r.value == users[userId]
      ensures r.Failure? ==> r.error == NotFound
    {
      if userId in users then Success(users[userId]) else Failure(NotFound)
    }

    method SaveUser(user: User) returns (r: Result<User, Error>)
      modifies this
      ensures old(Valid()) ==> Valid()
      ensures r.Success? <==> user.uuid !in old(users)
      ensures r.Success? ==> r.value == user && users == old(users)[user.uuid := user]
      ensures r.Failure? ==> r.error == AlreadyExists && users == old(users)
      ensures (projects, commits, reports, userXProject) == old((projects, commits, reports, userXProject))
    {
      if user.uuid in users {
        return Failure(AlreadyExists);
      }
      users := users[user.uuid := user];
      r := Success(user);
    }

    /** Deletes the user alone: memberships naming the user stay behind. */
    method DeleteUser(userId: string) returns (deleted: bool)
      modifies this
      ensures old(Valid()) ==> Valid()
      ensures deleted <==> userId in old(users)
      ensures users == old(users) - {userId}
      ensures (projects, commits, reports, userXProject) == old((projects, commits, reports, userXProject))
    {
      deleted := userId in users;
      users := users - {userId};
    }

    /** Up to `limit` users (0: all of them), each stored user at most once; `keys` names their ids. */
    method ListUsers(limit: int) returns (found: seq<User>, ghost keys: seq<string>)
      ensures |found| == Limited(|users|, limit)
      ensures |keys| == |found| && Distinct(keys)
      ensures forall i :: 0 <= i < |keys| ==> keys[i] in users && found[i] == users[keys[i]]
      ensures forall u :: u in found ==> u in users.Values
      ensures limit == 0 || |users| <= Magnitude(limit) ==>
                forall k :: k in users ==> k in keys && users[k] in found
    {
      found, keys := Find(users, (u: User) => true, limit);
      assert Matching(users, (u: User) => true) == users.Keys;
    }

    // ==== Access rights ====

    /** The id a membership of `userId` in `projectId` is filed under. */
    function MembershipId(userId: string, projectId: string): (id: string)
      ensures IsId(id)
    {
      hash(MembershipKey(userId, projectId))
    }

    method AddUserToProject(userId: string, projectId: string) returns (r: Result<UserXProject, Error>)
      modifies this
      ensures old(Valid()) ==> Valid()
      ensures r.Success? <==>
                && userId in old(users) && projectId in old(projects)
                && IsId(userId) && IsId(projectId)
                && MembershipId(userId, projectId) !in old(userXProject)
      ensures r.Success? ==>
                && r.value == UserXProject(MembershipId(userId, projectId), userId, projectId)
                && userXProject == old(userXProject)[r.value.uuid := r.value]
      ensures r.Failure? ==> userXProject == old(userXProject)
      ensures r.Failure? ==>
                r.error == (if userId !in old(users) || projectId !in old(projects) then NotFound
                            else if !IsId(userId) || !IsId(projectId) then ValidationError
                            else AlreadyExists)
      ensures (projects, commits, reports, users) == old((projects, commits, reports, users))
    {
      var user := GetUser(userId);
      if user.Failure? {
        return Failure(user.error);
      }
      var project := GetProject(projectId);
      if project.Failure? {
        return Failure(project.error);
      }
      var made := MakeMembership(hash, None, userId, projectId);
      if made.Failure? {
        return Failure(made.error);
      }
      var uxp := made.value;
      assert uxp == UserXProject(MembershipId(userId, projectId), userId, projectId);
      if uxp.uuid in userXProject {
        return Failure(AlreadyExists);
      }
      if Valid() {
        MembershipsRefiled(projects, commits, reports, users, userXProject, userXProject[uxp.uuid := uxp]);
      }
      userXProject := userXProject[uxp.uuid := uxp];
      r := Success(uxp);
    }

    /**
     * Deletes the membership filed under the derived id. A record found only
     * by its (user, project) pair is looked up but not deleted, and the
     * result is then false.
     */
    method RemoveUserFromProject(userId: string, projectId: string) returns (r: Result<bool, Error>)
      modifies this
      ensures old(Valid()) ==> Valid()
      ensures r.Success? <==> userId in old(users) && projectId in old(projects) && IsId(userId) && IsId(projectId)
      ensures r.Success? ==> r.value == (MembershipId(userId, projectId) in old(userXProject))
      ensures r.Success? ==> userXProject == old(userXProject) - {MembershipId(userId, projectId)}
      ensures r.Failure? ==> userXProject == old(userXProject)
      ensures r.Failure? ==>
                r.error == (if userId !in old(users) || projectId !in old(projects) then NotFound else ValidationError)
      ensures (projects, commits, reports, users) == old((projects, commits, reports, users))
    {
      var user := GetUser(userId);
      if user.Failure? {
        return Failure(user.error);
      }
      var project := GetProject(projectId);
      if project.Failure? {
        return Failure(project.error);
      }
      var made := MakeMembership(hash, None, userId, projectId);
      if made.Failure? {
        return Failure(made.error);
      }
      var id := made.value.uuid;
      assert id == MembershipId(userId, projectId);
      var found := id in userXProject || HasPair(userXProject, userId, projectId);
      var deleted := false;
      if found {
        deleted := id in userXProject;
        userXProject := userXProject - {id};
      } else {
        assert userXProject - {id} == userXProject;
      }
      r := Success(deleted);
    }

    /** Ids of the memberships of a user. */
    ghost function MembershipKeysOf(userId: string): set<string>
      reads this
    {
      set k | k in userXProject && userXProject[k].userId == userId
    }

    /**
     * The project ids of the user's memberships, one per membership record:
     * `keys` lists each membership of the user once, and entry `i` is the
     * project of membership `keys[i]`.
     */
    method ListUserProjectIds(userId: string) returns (r: Result<seq<string>, Error>, ghost keys: seq<string>)
      ensures r.Success? <==> userId in users
      ensures r.Failure? ==> r.error == NotFound
      ensures r.Success? ==> |keys| == |r.value| && Distinct(keys)
      ensures r.Success? ==> forall k :: k in keys <==> k in MembershipKeysOf(userId)
      ensures r.Success? ==>
                forall i :: 0 <= i < |keys| ==> keys[i] in userXProject && r.value[i] == userXProject[keys[i]].projectId
      ensures r.Success? ==>
                forall p :: p in r.value <==>
                  exists k :: k in userXProject && userXProject[k].userId == userId && userXProject[k].projectId == p
      ensures r.Success? ==> |r.value| == |MembershipKeysOf(userId)|
    {
      keys := [];
      var user := GetUser(userId);
      if user.Failure? {
        return Failure(user.error), keys;
      }
      var keep := (x: UserXProject) => x.userId == userId;
      var found;
      found, keys := Find(userXProject, keep, 0);
      assert Matching(userXProject, keep) == MembershipKeysOf(userId);
      var ids := seq(|found|, i requires 0 <= i < |found| => found[i].projectId);
      forall p ensures p in ids <==>
        exists k :: k in userXProject && userXProject[k].userId == userId && userXProject[k].projectId == p
      {
        if p in ids {
          var i :| 0 <= i < |ids| && ids[i] == p;
          assert userXProject[keys[i]].projectId == p;
        }
        if exists k :: k in userXProject && userXProject[k].userId == userId && userXProject[k].projectId == p {
          var k :| k in userXProject && userXProject[k].userId == userId && userXProject[k].projectId == p;
          assert k in Matching(userXProject, keep);
          var i :| 0 <= i < |keys| && keys[i] == k;
          assert ids[i] == p;
        }
      }
      r := Success(ids);
    }
  }
}
