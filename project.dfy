/**
 * The project routes: read one project, and select the coverage shown on a
 * project's badge: the smallest coverage among the reports of the latest
 * commit.
 */
module ProjectRouter {
  import opened Wrappers
  import opened Models
  import opened Db

  /**
   * Reads one project. The store lookup already fails for an absent id, so
   * the route's own "missing project" branch is never taken; the model
   * returns NotFound either way.
   */
  function GetProject(db: Store, projectId: string): (r: Result<Project, Error>)
    reads db
    ensures r.Success? <==> projectId in db.projects
    ensures r.Success? ==> r.value == db.projects[projectId]
    ensures r.Failure? ==> r.error == NotFound
  {
    var project := db.GetProject(projectId);
    if project.Failure? then Failure(project.error) else Success(project.value)
  }

  /** `min(x.coverage_value for x in rs)`: the first smallest value, or EmptySequence when there is none. */
  function MinCoverage(rs: seq<Report>): (r: Result<real, Error>)
    ensures r.Failure? <==> rs == []
    ensures r.Failure? ==> r.error == EmptySequence
    ensures r.Success? ==> exists i :: 0 <= i < |rs| && rs[i].coverage == r.value
    ensures r.Success? ==> forall i :: 0 <= i < |rs| ==> r.value <= rs[i].coverage
  {
    if rs == [] then
      Failure(EmptySequence)
    else
      var rest := MinCoverage(rs[1..]);
      if rest.Failure? || rs[0].coverage <= rest.value then Success(rs[0].coverage) else rest
  }

  /** The example of a commit whose jobs measured 95, 40 and 70: the badge shows 40. */
  lemma MinCoverageOfThree(c: string)
    ensures MinCoverage([Report("a", c, "main", "unit", 95.0),
                         Report("b", c, "main", "lint", 40.0),
                         Report("d", c, "main", "e2e", 70.0)]) == Success(40.0)
  {
  }

  /** `v` is the coverage of one of the reports recorded for commit `c`, and no such report has less. */
  ghost predicate IsMinimumCoverage(db: Store, c: Commit, v: real)
    reads db
  {
    && (exists k :: k in db.reports && db.reports[k].commitId == c.uuid && db.reports[k].coverage == v)
    && (forall k :: k in db.reports && db.reports[k].commitId == c.uuid ==> v <= db.reports[k].coverage)
  }

  /**
   * The coverage a project's badge shows: the minimum over the reports of
   * the latest commit, optionally on one branch. The colour and the badge
   * URL built from it are not part of this model.
   */
  method GetBadge(db: Store, projectId: string, branch: Option<string>) returns (r: Result<real, Error>)
    ensures projectId !in db.projects ==> r == Failure(NotFound)
    ensures projectId in db.projects && !db.HasCandidate(projectId, branch) ==> r == Failure(IndexError)
    ensures r.Success? ==> exists c :: db.IsLastCommit(projectId, branch, c) && IsMinimumCoverage(db, c, r.value)
    ensures r == Failure(EmptySequence) ==>
              exists c :: db.IsLastCommit(projectId, branch, c) && db.ReportKeysOf(c.uuid) == {}
    ensures db.Valid() && projectId in db.projects && db.HasCandidate(projectId, branch) ==>
              r.Success? || r == Failure(EmptySequence)
  {
    var commit := db.GetLastCommit(projectId, branch);
    if commit.Failure? {
      return Failure(commit.error);
    }
    var c := commit.value;
    if db.Valid() {
      var k :| k in db.commits && db.commits[k] == c;
      assert c.uuid in db.commits;
    }
    var rrs := db.GetReports(c.uuid);
    if rrs.Failure? {
      return Failure(rrs.error);
    }
    r := MinCoverage(rrs.value);
    if r.Success? {
      var i :| 0 <= i < |rrs.value| && rrs.value[i].coverage == r.value;
      assert rrs.value[i] in db.reports.Values;
      var j :| j in db.reports && db.reports[j] == rrs.value[i];
      forall k | k in db.reports && db.reports[k].commitId == c.uuid ensures r.value <= db.reports[k].coverage {
        assert db.reports[k] in rrs.value;
      }
      assert IsMinimumCoverage(db, c, r.value);
    }
  }
}
