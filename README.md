# take-over: persistence and domain core, modelled in Dafny

take-over records code-coverage measurements. A *project* has *commits*, and
each commit has one *report* per CI job, with that job's coverage value.
Users are linked to projects by *memberships*. A badge shows a project's
current coverage.

This model covers the core of the system:

- **Content-addressed ids** (`models.dfy`, module `Models`). Every entity's
  id is the digest of the plain concatenation of its key fields. For a user
  that is `name`. For a project it is `name + url`, for a commit
  `project_id + sha`, for a report `commit_id + job_name`, and for a
  membership `user_id + project_id`. The id is derived only when the caller
  did not supply one. After that, field shapes are checked: a sha is exactly
  40 characters, and an id or a reference has 24 to 32. The digest is the
  parameter `Hasher`: any total function on strings whose results are
  32 characters long, as an md5 hexdigest is.
- **The repository** (`db.dfy`, module `Db`). It is a class `Store` with one
  map per collection (`projects`, `commits`, `reports`, `users`,
  `userXProject`), from id to record. Inserting an id already present fails
  with `AlreadyExists` and changes nothing. A save looks up what the record
  refers to first, and fails with `NotFound`, writing nothing, when that is
  absent. `DeleteProject` runs the three deletion phases of the cascade in
  order. There are also list queries, a latest-commit query and membership
  add/remove. The invariant `Valid()` holds when every record is filed under
  its own uuid, every commit's project is present and every report's commit
  is present. Every operation that changes the store preserves it.
- **Job ingestion** (`job.dfy`, module `JobRouter`). `PostJob` derives the
  commit id from the job and creates the commit when it is absent. Then it
  records the report. A repeated (commit, job name) is a conflict.
- **Badge coverage** (`project.dfy`, module `ProjectRouter`). `GetBadge`
  takes the latest commit, optionally on one branch, and returns the minimum
  coverage over that commit's reports.

Failures are values of `Models.Error`: `NotFound`, `AlreadyExists`,
`ValidationError`, `IndexError` (indexing `[0]` into an empty query result)
and `EmptySequence` (`min` of nothing).

## Behaviour of the code worth knowing

- The timestamp normaliser builds a UTC-aware copy of a naive timestamp and
  then discards it, so a naive timestamp stays naive (`FixDttm`,
  `NaiveStaysNaive`).
- `get_last_commit` indexes `[0]` into the sorted cursor. So when the
  project exists but no commit matches, the failure is `IndexError`, not
  `NotFound`. Taking the minimum over a commit with no reports fails with
  `EmptySequence`.
- The report that ingestion records carries the branch of the submitted job.
  That is the branch of the freshly built commit value, not the branch of a
  commit already in the store.
- The store keeps a timezone-aware timestamp as its UTC instant and reads a
  naive one as UTC, so the latest commit is the one with the latest instant,
  not the latest clock reading (`OffsetDecidesOrder`, `LatestIsByInstant`).
  Read back, a timestamp comes as a naive UTC clock reading; see "Left out".
- Calling `delete_project` a second time fails with `NotFound`, because the
  project is gone. It does not succeed again.
- Neither `delete_user` nor `delete_project` removes memberships, so
  memberships can be left naming absent users or projects. `Valid()`
  therefore does not require memberships to point at present records.
- `remove_user_from_project` deletes only the record filed under the derived
  id. A record that only the fallback (user, project) lookup finds is left in
  place, and the call returns false.
- Adding the same membership twice derives the same id, so the second insert
  fails with `AlreadyExists`.
- The ingestion route imports a duplicate-insert error, `ExistsError`, from
  the store module (app/routers/job.py:9), which defines only `NotFoundError`
  (app/db.py:17-18). As written that import fails. The web application
  imports the route (app/main.py:7) and the command-line tool imports the
  same missing name itself (manager/project.py:8), so neither starts and
  ingestion never runs.
- Even with the name defined, no store method raises it: a duplicate insert
  raises the database driver's own duplicate-key error, which the route's
  `except ExistsError` (app/routers/job.py:38) does not catch, so a repeated
  job would end as an uncaught server error rather than a conflict. The model
  follows the evident intent instead: a duplicate insert fails with
  `AlreadyExists`, and `PostJob` returns that as its conflict result.
- A project id is taken over the URL as submitted, before the URL is
  validated and normalised. The stored record keeps the normalised URL.
  Because there is no separator, two different (name, url) pairs can share
  an id (`ProjectKeyAmbiguous`). Commit keys cannot collide like this,
  because a sha has a fixed length (`CommitKeyInjective`). Report and
  membership keys cannot either, as long as the ids in them all have the
  32-character derived length.

## Model

| member | source | states |
|---|---|---|
| `Models.FixDttm` | app/models.py:19-24 | normalising a timestamp keeps its UTC offset, a naive one staying naive, and the instant it names |
| `Models.NaiveStaysNaive` | app/models.py:19-24 | normalising a timestamp leaves its UTC offset and clock value unchanged; a naive timestamp stays naive |
| `Models.IsSha` | app/models.py:29 | a sha is exactly 40 characters, so it never has the shape of an id |
| `Models.IsId` | app/models.py:30 | an id, or a reference to one, is 24 to 32 characters: never empty, and shorter than a sha |
| `Models.Autofill` | app/models.py:67-71 | a supplied uuid is kept as given; a missing one becomes the digest of the key, which is always a valid id |
| `Models.MakeUser` | app/models.py:65-71 | builds a user, with its id derived from `name`; it fails with ValidationError exactly when a supplied uuid is not 24 to 32 characters |
| `Models.MakeProject` | app/models.py:74-80 | the id is derived from the raw `name + url`, and the record keeps the normalised URL; it fails exactly when a supplied uuid is malformed or the URL is rejected |
| `Models.MakeCommit` | app/models.py:83-94 | the id is derived from `project_id + sha`; it succeeds exactly when the uuid is valid or absent, `project_id` is 24 to 32 characters and `sha` is 40; the timestamp keeps its offset |
| `Models.MakeReport` | app/models.py:97-108 | the id is derived from `commit_id + job_name`; it succeeds exactly when the uuid is valid or absent and `commit_id` is 24 to 32 characters; all other fields are kept |
| `Models.MakeMembership` | app/models.py:111-120 | the id is derived from `user_id + project_id`; it succeeds exactly when the uuid is valid or absent and both references are 24 to 32 characters |
| `Models.ParseJob` | app/models.py:56-62 | a job submission is accepted exactly when its project id is 24 to 32 characters and its sha is 40 |
| `Models.CommitIdIgnoresBranchAndTime` | app/models.py:89-94 | two commits with the same project and sha get the same derived id, whatever their branch and timestamp |
| `Models.ReportIdIgnoresBranchAndCoverage` | app/models.py:103-108 | two reports with the same commit and job name get the same derived id, whatever their branch and coverage |
| `Models.ProjectIdOfConcatenation` | app/models.py:75-80 | projects whose `name + url` concatenations are equal get equal derived ids |
| `Models.ProjectKeyAmbiguous` | app/models.py:78 | two different (name, url) pairs have the same key, and so the same id |
| `Models.SplitAtLength` | app/models.py:92 | when the first parts have equal length, equal concatenations have equal parts |
| `Models.CommitKeyInjective` | app/models.py:92 | equal commit keys with 40-character shas have the same project id and sha |
| `Models.ReportKeyInjective` | app/models.py:106 | equal report keys whose commit ids have equal length have the same commit id and job name |
| `Models.MembershipKeyInjective` | app/models.py:118 | equal membership keys whose user ids have equal length have the same user id and project id |
| `Db.Limited` | app/db.py:43-45 | a query with limit 0 returns every match; any other limit returns at most its magnitude |
| `Db.Find` | app/db.py:64-67 | a query returns one record per matching id, each under a distinct id that the selector accepts, as many as the limit allows; when the limit does not cut it short, every matching id is among them |
| `Models.DateTime.Instant` | app/db.py:79 | the UTC instant the store sorts timestamps by: an aware timestamp is shifted back by its offset, and a naive or UTC timestamp is its clock reading |
| `Models.SameOffsetSameOrder` | app/db.py:79 | timestamps with one UTC offset order by instant exactly as by clock reading |
| `Models.OffsetDecidesOrder` | app/db.py:79 | 10:00+02:00 is an earlier instant than 09:00+00:00, although its clock reading is later |
| `Db.Selects` | app/db.py:80-82 | the latest-commit selector always requires the project; a missing or empty branch adds no further condition, and any other branch must match |
| `Db.FirstByNewest` | app/db.py:79-84 | sorting by timestamp, newest first, and taking element `[0]` yields a candidate whose UTC instant is no earlier than any other candidate's; with no candidates it fails with IndexError |
| `Db.DropCommitsOf` | app/db.py:52 | after deleting a project's commits, none of its commits remain, and every other commit is kept unchanged |
| `Db.DropReportsOf` | app/db.py:49-51 | after deleting the reports on the given commits, none of those reports remain, and every other report is kept unchanged |
| `Db.CascadeKeepsConsistent` | app/db.py:47-54 | the cascade leaves no orphans: a consistent store stays consistent, and reports of other projects' commits survive |
| `Db.Store.constructor` | app/db.py:26-28 | a new store is empty and consistent |
| `Db.Store.SaveProject` | app/db.py:32-35 | the project is inserted under its uuid; a uuid already present fails with AlreadyExists and changes nothing; no other collection changes |
| `Db.Store.GetProject` | app/db.py:37-41 | returns the stored project, or fails with NotFound exactly when the id is absent |
| `Db.Store.ListProjects` | app/db.py:43-45 | returns stored projects, each under a distinct id, as many as the limit allows; with no limit, every stored project |
| `Db.Store.DeleteProject` | app/db.py:47-54 | an absent project fails with NotFound and nothing is deleted; otherwise the project, its commits and their reports are removed, every other record is kept, the result is true, and consistency is preserved |
| `Db.Store.SaveCommit` | app/db.py:58-62 | a commit whose project is absent fails with NotFound; a duplicate uuid fails with AlreadyExists; either failure writes nothing; otherwise exactly this commit is added |
| `Db.Store.GetProjectCommits` | app/db.py:64-67 | fails with NotFound exactly when the project is absent; otherwise returns exactly the project's commits, one per stored commit |
| `Db.Store.GetCommit` | app/db.py:69-73 | a present id gives its commit; an absent id gives None when `do_raise` is false and fails with NotFound when it is true |
| `Db.Store.LatestIsByInstant` | app/db.py:79-83 | of a commit at 10:00+02:00 and one at 09:00+00:00, the second is the latest and the first is not |
| `Db.Store.GetLastCommit` | app/db.py:75-84 | an absent project fails with NotFound; with no matching commit it fails with IndexError; otherwise it returns a matching commit whose UTC instant is no earlier than any match's; a non-empty branch restricts the matches |
| `Db.Store.SaveReport` | app/db.py:88-92 | a report whose commit is absent fails with NotFound; a duplicate uuid fails with AlreadyExists; either failure writes nothing; otherwise exactly this report is added |
| `Db.Store.GetReports` | app/db.py:94-98 | fails with NotFound exactly when the commit is absent; otherwise returns exactly the reports on that commit, one per stored report |
| `Db.Store.GetUser` | app/db.py:102-106 | returns the stored user, or fails with NotFound exactly when the id is absent |
| `Db.Store.SaveUser` | app/db.py:108-111 | the user is inserted under its uuid; a uuid already present fails with AlreadyExists and changes nothing |
| `Db.Store.DeleteUser` | app/db.py:113-115 | removes the user; the result is true exactly when the user was present; memberships are left in place |
| `Db.Store.ListUsers` | app/db.py:117-119 | returns stored users, each under a distinct id, as many as the limit allows; with no limit, every stored user |
| `Db.Store.MembershipId` | app/db.py:136 | the id a membership is filed under is a valid id |
| `Db.Store.AddUserToProject` | app/db.py:123-131 | an absent user or project fails with NotFound; malformed references fail with ValidationError; an existing membership fails with AlreadyExists; otherwise exactly the derived membership is added |
| `Db.Store.RemoveUserFromProject` | app/db.py:133-146 | an absent user or project fails with NotFound; otherwise only the record under the derived id is deleted, and the result is true exactly when that record existed |
| `Db.HasPair` | app/db.py:139-141 | the fallback lookup by (user, project) finds every membership record of this user in this project, whatever id it is filed under |
| `Db.Store.ListUserProjectIds` | app/db.py:148-151 | fails with NotFound exactly when the user is absent; otherwise entry `i` is the project id of the `i`-th of the user's memberships, each membership listed exactly once, so a project appears as often as the user has memberships in it |
| `JobRouter.JobCommitId` | app/routers/job.py:17-22 | the commit id is derived from the job alone, without reading the store, and is a valid id |
| `JobRouter.JobReportId` | app/routers/job.py:30-35 | the report id is derived from the derived commit id and the job name, and is a valid id |
| `JobRouter.JobCommit` | app/routers/job.py:17-22 | building the commit from a valid job succeeds, and yields this commit under the derived id |
| `JobRouter.JobReport` | app/routers/job.py:30-35 | building the report succeeds; it names the derived commit id and carries the job's branch |
| `JobRouter.PostJob` | app/routers/job.py:14-39 | a new commit with an absent project fails with NotFound and writes nothing; an existing commit is not re-inserted; a recorded (commit, job) fails with AlreadyExists and leaves the reports unchanged; on success exactly one report is added, and it is the one returned |
| `JobRouter.ResubmitJob` | app/routers/job.py:36-39 | once a job is recorded, resubmitting it for the same commit is a conflict, and the first coverage value stays |
| `JobRouter.TwoJobsOneCommit` | app/routers/job.py:23-27 | two jobs on one commit create the commit at most once, from the first submission, and both reports are recorded |
| `ProjectRouter.GetProject` | app/routers/project.py:23-32 | returns the stored project, or fails with NotFound exactly when the id is absent |
| `ProjectRouter.MinCoverage` | app/routers/project.py:42 | the result is one of the coverage values and no greater than any of them; an empty sequence fails |
| `ProjectRouter.MinCoverageOfThree` | app/routers/project.py:42 | reports with coverage 95, 40 and 70 give 40 |
| `ProjectRouter.GetBadge` | app/routers/project.py:35-42 | an absent project fails with NotFound; with no matching commit it fails with IndexError; otherwise the value is the minimum coverage over the reports of a commit with the latest UTC instant, and it fails only when that commit has no reports |

## Left out

- The MongoDB client, its connection settings from the environment, the singleton wrapper and the module-level store instance (app/db.py:1-28, 155). They are replaced by the in-memory `Store` class.
- The md5 digest itself. `Hasher` fixes only the 32-character length of its results, not the hexadecimal alphabet or collision resistance.
- ISO-8601 parsing of timestamps, and precision finer than a millisecond. A timestamp is a clock reading plus an optional UTC offset, both whole milliseconds; ordering compares the UTC instant, and a naive timestamp counts as UTC.
- The HttpUrl validator. It is the parameter `UrlParser`: it accepts or rejects a URL and gives the normalised text.
- Floating point. Coverage values are `real`, so NaN and rounding are not modelled.
- The badge colour gradient and the badge-service URL (app/utils/badge.py), and the password and token helpers (app/utils/security.py). They are numeric and external-library code.
- The web-framework and command-line wiring (app/main.py, manager/). HTTP status codes are not modelled, only the distinct failure values. In the source, a NotFound raised by the store and not caught by the route would reach the client as a server error; the model returns it as NotFound.
- Concurrency. Calls run one at a time, so the check-then-create race in ingestion is not modelled. Each delete phase runs to completion; a crash part-way through a cascade is not modelled.
- Lazy result iteration. Queries return sequences. Their order is left open, as the store's natural order is.
- Db.Limited: does not model the server's batch-size cap on a negative limit.
- Re-validation of a record when it is read back from the store. Reads return the stored record as it is.
- Timestamps as read back. The store client is opened without timezone awareness, so the source reads a commit's timestamp back as a naive UTC clock reading cut to milliseconds: a commit saved at 10:00+02:00 comes back as naive 08:00. The model's reads return the timestamp as it was saved, offset included. `Instant()` is the same for both forms, since the model counts milliseconds, so the latest-commit order does not depend on the difference.
- An explicitly supplied `uuid=None`. In the model, `None` means the uuid was not supplied, so it is always derived.
- Default arguments (a limit of 50, a missing branch). Callers pass every argument.
