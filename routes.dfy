/** The `/api/jobs` handlers: list, create, update and delete over one shared
    table of job rows, each guarded by the `x-user-id` header. */
module Routes {
  import opened Wrappers
  import opened Schema
  import opened Seqs

  const NotAuthenticated := "Not authenticated"

  /** What a handler answers: 200 with a JSON body, or an error status with text. */
  datatype Response<T> = Ok(body: T) | Error(status: int, message: string)

  /** The caller as the handlers read it: an absent header and an empty one
      are both falsy and both refused. */
  function Caller(header: Option<string>): (u: Option<string>)
    ensures u.Some? <==> header.Some? && header.value != ""
    ensures u.Some? ==> u == header
  {
    if header.Some? && header.value != "" then header else None
  }

  // ---------------------------------------------------------------------------
  // Request bodies
  // ---------------------------------------------------------------------------

  /** The body of a create request. It may carry a `userId` of its own; the
      handler's override comes after the spread, so it never reaches the row. */
  datatype Draft = Draft(
    userId: Option<string>,
    companyName: string,
    jobTitle: string,
    location: Option<string>,
    salaryMin: Option<int>,
    salaryMax: Option<int>,
    applicationDate: Date,
    recruiterStatus: string,
    referralStatus: string,
    assessmentStatus: string,
    interviewStatus: string,
    applicationStatus: string,
    notes: Option<string>,
    interviewDate: Option<Date>)

  /** The row a create inserts: the serial id, the caller as owner, and both
      timestamps defaulting to now. */
  function Inserted(d: Draft, owner: string, id: int, now: Date): (r: Job)
    ensures r.id == id && r.userId == owner
    ensures r.createdAt == now && r.updatedAt == now
    ensures r.companyName == d.companyName && r.jobTitle == d.jobTitle && r.applicationDate == d.applicationDate
    ensures r.location == d.location && r.notes == d.notes && r.interviewDate == d.interviewDate
    ensures r.salaryMin == d.salaryMin && r.salaryMax == d.salaryMax
    ensures r.applicationStatus == d.applicationStatus && r.recruiterStatus == d.recruiterStatus
            && r.referralStatus == d.referralStatus && r.assessmentStatus == d.assessmentStatus
            && r.interviewStatus == d.interviewStatus
  {
    Job(id, owner, d.companyName, d.jobTitle, d.location, d.salaryMin, d.salaryMax,
        d.applicationDate, d.recruiterStatus, d.referralStatus, d.assessmentStatus,
        d.interviewStatus, d.applicationStatus, d.notes, d.interviewDate, now, now)
  }

  /** The body of an update: any subset of the columns (None = key absent).
      Nullable columns take Some(None) for an explicit null. */
  datatype Patch = Patch(
    userId: Option<string>,
    companyName: Option<string>,
    jobTitle: Option<string>,
    location: Option<Option<string>>,
    salaryMin: Option<Option<int>>,
    salaryMax: Option<Option<int>>,
    applicationDate: Option<Date>,
    recruiterStatus: Option<string>,
    referralStatus: Option<string>,
    assessmentStatus: Option<string>,
    interviewStatus: Option<string>,
    applicationStatus: Option<string>,
    notes: Option<Option<string>>,
    interviewDate: Option<Option<Date>>,
    createdAt: Option<Date>,
    updatedAt: Option<Date>)

  function Or<T>(o: Option<T>, otherwise: T): T
  {
    if o.Some? then o.value else otherwise
  }

  /** `set({ ...body, updatedAt: new Date() })` applied to one row: the body's
      columns replace the row's, and `updatedAt` is now whatever the body said. */
  function Patched(j: Job, p: Patch, now: Date): (r: Job)
    ensures r.id == j.id && r.updatedAt == now
    ensures r.userId == (if p.userId.Some? then p.userId.value else j.userId)
    ensures p == EmptyPatch ==> r == j.(updatedAt := now)
    ensures p.companyName.Some? ==> r.companyName == p.companyName.value
    ensures p.companyName.None? ==> r.companyName == j.companyName
    ensures p.jobTitle.Some? ==> r.jobTitle == p.jobTitle.value
    ensures p.jobTitle.None? ==> r.jobTitle == j.jobTitle
    ensures p.location.Some? ==> r.location == p.location.value
    ensures p.location.None? ==> r.location == j.location
    ensures p.salaryMin.Some? ==> r.salaryMin == p.salaryMin.value
    ensures p.salaryMin.None? ==> r.salaryMin == j.salaryMin
    ensures p.salaryMax.Some? ==> r.salaryMax == p.salaryMax.value
    ensures p.salaryMax.None? ==> r.salaryMax == j.salaryMax
    ensures p.applicationDate.Some? ==> r.applicationDate == p.applicationDate.value
    ensures p.applicationDate.None? ==> r.applicationDate == j.applicationDate
    ensures p.recruiterStatus.Some? ==> r.recruiterStatus == p.recruiterStatus.value
    ensures p.recruiterStatus.None? ==> r.recruiterStatus == j.recruiterStatus
    ensures p.referralStatus.Some? ==> r.referralStatus == p.referralStatus.value
    ensures p.referralStatus.None? ==> r.referralStatus == j.referralStatus
    ensures p.assessmentStatus.Some? ==> r.assessmentStatus == p.assessmentStatus.value
    ensures p.assessmentStatus.None? ==> r.assessmentStatus == j.assessmentStatus
    ensures p.interviewStatus.Some? ==> r.interviewStatus == p.interviewStatus.value
    ensures p.interviewStatus.None? ==> r.interviewStatus == j.interviewStatus
    ensures p.applicationStatus.Some? ==> r.applicationStatus == p.applicationStatus.value
    ensures p.applicationStatus.None? ==> r.applicationStatus == j.applicationStatus
    ensures p.notes.Some? ==> r.notes == p.notes.value
    ensures p.notes.None? ==> r.notes == j.notes
    ensures p.interviewDate.Some? ==> r.interviewDate == p.interviewDate.value
    ensures p.interviewDate.None? ==> r.interviewDate == j.interviewDate
    ensures p.createdAt.Some? ==> r.createdAt == p.createdAt.value
    ensures p.createdAt.None? ==> r.createdAt == j.createdAt
  {
    j.(userId := Or(p.userId, j.userId),
       companyName := Or(p.companyName, j.companyName),
       jobTitle := Or(p.jobTitle, j.jobTitle),
       location := Or(p.location, j.location),
       salaryMin := Or(p.salaryMin, j.salaryMin),
       salaryMax := Or(p.salaryMax, j.salaryMax),
       applicationDate := Or(p.applicationDate, j.applicationDate),
       recruiterStatus := Or(p.recruiterStatus, j.recruiterStatus),
       referralStatus := Or(p.referralStatus, j.referralStatus),
       assessmentStatus := Or(p.assessmentStatus, j.assessmentStatus),
       interviewStatus := Or(p.interviewStatus, j.interviewStatus),
       applicationStatus := Or(p.applicationStatus, j.applicationStatus),
       notes := Or(p.notes, j.notes),
       interviewDate := Or(p.interviewDate, j.interviewDate),
       createdAt := Or(p.createdAt, j.createdAt),
       updatedAt := now)
  }

  const EmptyPatch := Patch(None, None, None, None, None, None, None, None, None,
                            None, None, None, None, None, None, None)

  // ---------------------------------------------------------------------------
  // Queries on the table, as the database runs them
  // ---------------------------------------------------------------------------

  /** `where(eq(jobs.userId, user))`. */
  function OwnedBy(rows: seq<Job>, user: string): (r: seq<Job>)
    ensures forall j :: j in r <==> j in rows && j.userId == user
    ensures IsSubsequence(r, rows)
  {
    var mine := (j: Job) => j.userId == user;
    FilterIsSubsequence(rows, mine);
    Filter(rows, mine)
  }

  /** `orderBy desc(jobs.updatedAt)`: most recently updated first. */
  predicate NewestFirst(rows: seq<Job>)
  {
    forall i, k :: 0 <= i < k < |rows| ==> rows[i].updatedAt >= rows[k].updatedAt
  }

  function InsertNewest(x: Job, s: seq<Job>): (r: seq<Job>)
    requires NewestFirst(s)
    ensures NewestFirst(r)
    ensures multiset(r) == multiset(s) + multiset{x}
    ensures forall e :: e in r ==> e in s || e == x
  {
    if s == [] || x.updatedAt >= s[0].updatedAt then [x] + s
    else
      var t := InsertNewest(x, s[1..]);
      assert s == [s[0]] + s[1..];
      HeadIsNewest(s);
      assert forall e :: e in t ==> s[0].updatedAt >= e.updatedAt;
      ConsNewest(s[0], t);
      [s[0]] + t
  }

  /** A row at least as recent as every row of a newest-first sequence may
      go in front of it. */
  lemma ConsNewest(h: Job, t: seq<Job>)
    requires NewestFirst(t)
    requires forall e :: e in t ==> h.updatedAt >= e.updatedAt
    ensures NewestFirst([h] + t)
  {
    var r := [h] + t;
    forall i, k | 0 <= i < k < |r| ensures r[i].updatedAt >= r[k].updatedAt {
      if i == 0 {
        assert r[k] == t[k - 1];
      }
    }
  }

  /** The head of a newest-first sequence is at least as recent as every
      row after it. */
  lemma HeadIsNewest(s: seq<Job>)
    requires NewestFirst(s) && s != []
    ensures forall e :: e in s[1..] ==> s[0].updatedAt >= e.updatedAt
  {
    forall e | e in s[1..] ensures s[0].updatedAt >= e.updatedAt {
      var k :| 0 <= k < |s[1..]| && s[1..][k] == e;
      assert s[k + 1] == e;
    }
  }

  /** A reference ordering of rows, newest first. Rows with equal `updatedAt`
      may come in any order in the source; this one is one of those orders. */
  function SortNewestFirst(s: seq<Job>): (r: seq<Job>)
    ensures NewestFirst(r)
    ensures multiset(r) == multiset(s)
  {
    if s == [] then []
    else
      assert s == [s[0]] + s[1..];
      InsertNewest(s[0], SortNewestFirst(s[1..]))
  }

  /** The update statement: every row with the id is patched, the others kept. */
  function UpdateRows(rows: seq<Job>, id: int, p: Patch, now: Date): (r: seq<Job>)
    ensures |r| == |rows|
    ensures forall k :: 0 <= k < |rows| && rows[k].id != id ==> r[k] == rows[k]
    ensures forall k :: 0 <= k < |rows| && rows[k].id == id ==> r[k] == Patched(rows[k], p, now)
  {
    if rows == [] then []
    else [if rows[0].id == id then Patched(rows[0], p, now) else rows[0]] + UpdateRows(rows[1..], id, p, now)
  }

  /** `returning()[0]`: the first row with the id, if any. */
  function FirstWithId(rows: seq<Job>, id: int): (r: Option<Job>)
    ensures r.Some? ==> r.value in rows && r.value.id == id
    ensures r.None? <==> forall j :: j in rows ==> j.id != id
  {
    if rows == [] then None
    else if rows[0].id == id then Some(rows[0])
    else FirstWithId(rows[1..], id)
  }

  /** The delete statement: the rows whose id differs, in their order. */
  function WithoutId(rows: seq<Job>, id: int): (r: seq<Job>)
    ensures forall j :: j in r <==> j in rows && j.id != id
    ensures IsSubsequence(r, rows)
  {
    var kept := (j: Job) => j.id != id;
    FilterIsSubsequence(rows, kept);
    Filter(rows, kept)
  }

  // ---------------------------------------------------------------------------
  // Properties of the statements
  // ---------------------------------------------------------------------------

  /** An update answers with the patched row exactly when a row had the id. */
  lemma {:induction false} UpdateAnswer(rows: seq<Job>, id: int, p: Patch, now: Date)
    ensures FirstWithId(UpdateRows(rows, id, p, now), id) ==
      match FirstWithId(rows, id)
      case Some(j) => Some(Patched(j, p, now))
      case None => None
  {
    if rows != [] {
      var r := UpdateRows(rows, id, p, now);
      assert r[1..] == UpdateRows(rows[1..], id, p, now);
      UpdateAnswer(rows[1..], id, p, now);
    }
  }

  /** Updating an id no row has leaves the table as it was. */
  lemma UpdateMissingIsNoop(rows: seq<Job>, id: int, p: Patch, now: Date)
    requires FirstWithId(rows, id).None?
    ensures UpdateRows(rows, id, p, now) == rows
  {
    var r := UpdateRows(rows, id, p, now);
    assert forall k :: 0 <= k < |rows| ==> r[k] == rows[k] by {
      forall k | 0 <= k < |rows| ensures r[k] == rows[k] {
        assert rows[k] in rows;
      }
    }
  }

  /** Updating keeps every id where it was, so the primary key stays unique. */
  lemma UpdateKeepsIds(rows: seq<Job>, id: int, p: Patch, now: Date)
    requires DistinctIds(rows)
    ensures DistinctIds(UpdateRows(rows, id, p, now))
    ensures forall j :: j in UpdateRows(rows, id, p, now) ==> exists i :: i in rows && i.id == j.id
  {
    var r := UpdateRows(rows, id, p, now);
    forall j | j in r ensures exists i :: i in rows && i.id == j.id {
      var k :| 0 <= k < |r| && r[k] == j;
      assert rows[k] in rows && rows[k].id == j.id;
    }
  }

  /** A patched row that the caller owns afterwards is in the caller's list,
      carries the patched values, and is stamped with the update's time. */
  lemma UpdateIsListed(rows: seq<Job>, id: int, p: Patch, now: Date, user: string)
    requires FirstWithId(rows, id).Some?
    requires Patched(FirstWithId(rows, id).value, p, now).userId == user
    ensures Patched(FirstWithId(rows, id).value, p, now) in OwnedBy(UpdateRows(rows, id, p, now), user)
  {
    var j := FirstWithId(rows, id).value;
    var k :| 0 <= k < |rows| && rows[k] == j;
    assert UpdateRows(rows, id, p, now)[k] == Patched(j, p, now);
  }

  lemma {:induction false} WithoutIdKeepsDistinct(rows: seq<Job>, id: int)
    requires DistinctIds(rows)
    ensures DistinctIds(WithoutId(rows, id))
  {
    if rows != [] {
      assert DistinctIds(rows[1..]);
      WithoutIdKeepsDistinct(rows[1..], id);
      var t := WithoutId(rows[1..], id);
      assert forall j :: j in t ==> j.id != rows[0].id by {
        forall j | j in t ensures j.id != rows[0].id {
          var k :| 0 <= k < |rows[1..]| && rows[1..][k] == j;
          assert rows[k + 1] == j;
        }
      }
      if rows[0].id != id {
        assert WithoutId(rows, id) == [rows[0]] + t;
      } else {
        assert WithoutId(rows, id) == t;
      }
    }
  }

  /** With unique ids, a delete of an existing id removes exactly one row;
      of an absent id, none. */
  lemma {:induction false} DeleteCount(rows: seq<Job>, id: int)
    requires DistinctIds(rows)
    ensures |WithoutId(rows, id)| == if FirstWithId(rows, id).Some? then |rows| - 1 else |rows|
  {
    if rows != [] {
      assert DistinctIds(rows[1..]);
      DeleteCount(rows[1..], id);
      if rows[0].id == id {
        assert WithoutId(rows, id) == WithoutId(rows[1..], id);
        assert FirstWithId(rows[1..], id).None? by {
          forall j | j in rows[1..] ensures j.id != id {
            var k :| 0 <= k < |rows[1..]| && rows[1..][k] == j;
            assert rows[k + 1] == j;
          }
        }
      } else {
        assert WithoutId(rows, id) == [rows[0]] + WithoutId(rows[1..], id);
      }
    }
  }

  /** After a delete, no list answer contains a row with the deleted id. */
  lemma DeletedIsNotListed(rows: seq<Job>, id: int, user: string)
    ensures forall j :: j in OwnedBy(WithoutId(rows, id), user) ==> j.id != id
    ensures forall j :: j in rows && j.userId == user && j.id != id ==>
              j in OwnedBy(WithoutId(rows, id), user)
  {
  }

  // ---------------------------------------------------------------------------
  // The table
  // ---------------------------------------------------------------------------

  /** The `jobs` table with its serial id counter. */
  class JobTable {
    var rows: seq<Job>
    var nextId: int

    ghost predicate Valid()
      reads this
    {
      DistinctIds(rows) && 1 <= nextId && forall j :: j in rows ==> 1 <= j.id < nextId
    }

    constructor ()
      ensures Valid() && rows == [] && nextId == 1
    {
      rows := [];
      nextId := 1;
    }

    /** GET /api/jobs */
    method List(header: Option<string>) returns (res: Response<seq<Job>>)
      requires Valid()
      ensures Caller(header).None? ==> res == Error(401, NotAuthenticated)
      ensures Caller(header).Some? ==> res.Ok?
      ensures res.Ok? ==> NewestFirst(res.body)
      ensures res.Ok? ==> multiset(res.body) == multiset(OwnedBy(rows, header.value))
      ensures res.Ok? ==> forall j :: j in res.body <==> j in rows && j.userId == header.value
    {
      var caller := Caller(header);
      if caller.None? {
        return Error(401, NotAuthenticated);
      }
      var mine := SortNewestFirst(OwnedBy(rows, caller.value));
      assert forall j :: j in mine <==> j in multiset(OwnedBy(rows, caller.value));
      res := Ok(mine);
    }

    /** POST /api/jobs */
    method Create(header: Option<string>, body: Draft, now: Date) returns (res: Response<Job>)
      requires Valid()
      modifies this
      ensures Valid()
      ensures Caller(header).None? ==>
                res == Error(401, NotAuthenticated) && rows == old(rows) && nextId == old(nextId)
      ensures Caller(header).Some? ==>
                && res == Ok(Inserted(body, header.value, old(nextId), now))
                && rows == old(rows) + [res.body]
                && nextId == old(nextId) + 1
      ensures res.Ok? ==> res.body.userId == header.value
      ensures res.Ok? ==> forall j :: j in old(rows) ==> j.id != res.body.id
    {
      var caller := Caller(header);
      if caller.None? {
        return Error(401, NotAuthenticated);
      }
      var job := Inserted(body, caller.value, nextId, now);
      rows := rows + [job];
      nextId := nextId + 1;
      res := Ok(job);
    }

    /** PUT /api/jobs/:id. The row's owner is not compared with the caller. */
    method Update(header: Option<string>, id: int, body: Patch, now: Date)
      returns (res: Response<Option<Job>>)
      requires Valid()
      modifies this
      ensures Valid() && nextId == old(nextId)
      ensures Caller(header).None? ==> res == Error(401, NotAuthenticated) && rows == old(rows)
      ensures Caller(header).Some? ==>
                && rows == UpdateRows(old(rows), id, body, now)
                && res == Ok(FirstWithId(rows, id))
    {
      var caller := Caller(header);
      if caller.None? {
        return Error(401, NotAuthenticated);
      }
      UpdateKeepsIds(rows, id, body, now);
      rows := UpdateRows(rows, id, body, now);
      res := Ok(FirstWithId(rows, id));
    }

    /** DELETE /api/jobs/:id. Answers 200 whether or not a row had the id;
        the row's owner is not compared with the caller. */
    method Delete(header: Option<string>, id: int) returns (res: Response<()>)
      requires Valid()
      modifies this
      ensures Valid() && nextId == old(nextId)
      ensures Caller(header).None? ==> res == Error(401, NotAuthenticated) && rows == old(rows)
      ensures Caller(header).Some? ==> res == Ok(()) && rows == WithoutId(old(rows), id)
    {
      var caller := Caller(header);
      if caller.None? {
        return Error(401, NotAuthenticated);
      }
      WithoutIdKeepsDistinct(rows, id);
      rows := WithoutId(rows, id);
      res := Ok(());
    }
  }
}
