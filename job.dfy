/**
 * The job-ingestion workflow: resolve the commit a job was measured on,
 * creating it when it is not stored yet, then record the job's report.
 * Calls are taken one at a time; two ingestions never interleave.
 */
module JobRouter {
  import opened Wrappers
  import opened Models
  import opened Db

  /** The id of the commit a job names, derived from the job alone. */
  function JobCommitId(h: Hasher, job: NewJob): (id: string)
    ensures IsId(id)
  {
    h(CommitKey(job.projectId, job.commitSha))
  }

  /** The id of the report a job produces, derived from the job alone. */
  function JobReportId(h: Hasher, job: NewJob): (id: string)
    ensures IsId(id)
  {
    h(ReportKey(JobCommitId(h, job), job.jobName))
  }

  /** The commit record the workflow builds from a job. */
  function JobCommit(h: Hasher, job: NewJob): (c: Commit)
    requires job.Valid()
    ensures MakeCommit(h, None, job.projectId, job.branch, job.commitSha, job.commitDttm) == Success(c)
    ensures c.uuid == JobCommitId(h, job)
  {
    Commit(JobCommitId(h, job), job.projectId, job.branch, job.commitSha, FixDttm(job.commitDttm))
  }

  /**
   * The report record the workflow builds from a job: it names the derived
   * commit id and carries the submitted branch, job name and coverage.
   */
  function JobReport(h: Hasher, job: NewJob): (rr: Report)
    ensures MakeReport(h, None, JobCommitId(h, job), job.branch, job.jobName, job.coverage) == Success(rr)
    ensures rr.uuid == JobReportId(h, job)
    ensures rr.commitId == JobCommitId(h, job) && rr.branch == job.branch
  {
    Report(JobReportId(h, job), JobCommitId(h, job), job.branch, job.jobName, job.coverage)
  }

  /**
   * Ingests one job. Fails NotFound, writing nothing, when the commit is new
   * and its project is absent; fails AlreadyExists when the job's report is
   * already recorded, leaving every report as it was.
   */
  method PostJob(db: Store, job: NewJob) returns (r: Result<Report, Error>)
    requires job.Valid()
    modifies db
    ensures old(db.Valid()) ==> db.Valid()
    ensures var cid := JobCommitId(db.hash, job);
            r.Success? <==>
              && (cid in old(db.commits) || job.projectId in old(db.projects))
              && JobReportId(db.hash, job) !in old(db.reports)
    ensures var cid := JobCommitId(db.hash, job);
            r.Failure? ==>
              r.error == (if cid !in old(db.commits) && job.projectId !in old(db.projects) then NotFound
                          else AlreadyExists)
    ensures var cid := JobCommitId(db.hash, job);
            db.commits == (if cid in old(db.commits) || job.projectId !in old(db.projects) then old(db.commits)
                           else old(db.commits)[cid := JobCommit(db.hash, job)])
    ensures r.Success? ==> r.value == JobReport(db.hash, job)
    ensures r.Success? ==> db.reports == old(db.reports)[r.value.uuid := r.value]
    ensures r.Failure? ==> db.reports == old(db.reports)
    ensures (db.projects, db.users, db.userXProject) == old((db.projects, db.users, db.userXProject))
  {
    var made := MakeCommit(db.hash, None, job.projectId, job.branch, job.commitSha, job.commitDttm);
    var commit := made.value;
    var existing := db.GetCommit(commit.uuid, false);
    if existing.value.None? {
      var saved := db.SaveCommit(commit);
      if saved.Failure? {
        return Failure(saved.error);
      }
    }
    var rr := MakeReport(db.hash, None, commit.uuid, commit.branch, job.jobName, job.coverage).value;
    r := db.SaveReport(rr);
  }

  /**
   * The same job submitted twice for one commit: once the first is recorded
   * the second is a conflict, and the recorded coverage stays the first's.
   */
  method ResubmitJob(db: Store, first: NewJob, second: NewJob) returns (r1: Result<Report, Error>, r2: Result<Report, Error>)
    requires first.Valid() && second.Valid()
    requires first.projectId == second.projectId && first.commitSha == second.commitSha
    requires first.jobName == second.jobName
    modifies db
    ensures r1.Success? ==> r2 == Failure(AlreadyExists)
    ensures r1.Success? ==> db.reports == old(db.reports)[r1.value.uuid := r1.value]
    ensures r1.Success? ==> db.reports[r1.value.uuid].coverage == first.coverage
  {
    r1 := PostJob(db, first);
    r2 := PostJob(db, second);
  }

  /**
   * Two jobs measured on one commit under different names: the commit is
   * created at most once, from the first submission, and both reports are
   * recorded.
   */
  method TwoJobsOneCommit(db: Store, first: NewJob, second: NewJob) returns (r1: Result<Report, Error>, r2: Result<Report, Error>)
    requires first.Valid() && second.Valid()
    requires first.projectId == second.projectId && first.commitSha == second.commitSha
    requires first.projectId in db.projects
    requires JobReportId(db.hash, first) != JobReportId(db.hash, second)
    requires JobReportId(db.hash, first) !in db.reports && JobReportId(db.hash, second) !in db.reports
    modifies db
    ensures r1.Success? && r2.Success?
    ensures var cid := JobCommitId(db.hash, first);
            db.commits == (if cid in old(db.commits) then old(db.commits)
                           else old(db.commits)[cid := JobCommit(db.hash, first)])
    ensures db.reports == old(db.reports)[r1.value.uuid := r1.value][r2.value.uuid := r2.value]
  {
    r1 := PostJob(db, first);
    r2 := PostJob(db, second);
  }
}
