/** The one stored entity, a job application row of the `jobs` table. */
module Schema {
  import opened Wrappers

  /** An instant; instants are ordered as integers and the clock is a parameter. */
  type Date = int

  /** A row of the `jobs` table. The owner is the `x-user-id` header string the
      server stores, and `interviewDate` is the field the form and the calendar use. */
  datatype Job = Job(
    id: int,
    userId: string,
    companyName: string,
    jobTitle: string,
    location: Option<string>,
    salaryMin: Option<int>,
    salaryMax: Option<int>,
    applicationDate: Date,
    recruiterStatus: string,
    referralStatus: string,
    assessmentStatus: string,
    interviewStatus: string,
    applicationStatus: string,
    notes: Option<string>,
    interviewDate: Option<Date>,
    createdAt: Date,
    updatedAt: Date)

  /** The primary key: no two rows share an id. */
  predicate DistinctIds(rows: seq<Job>)
  {
    forall i, k :: 0 <= i < k < |rows| ==> rows[i].id != rows[k].id
  }
}
