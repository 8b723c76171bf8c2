/** The analytics panel: the options of each filter dimension, the
    case-insensitive search over the selected dimension, the three status
    counts of the chart, and the per-option counts of the results list. */
module Analytics {
  import opened Wrappers
  import opened Schema
  import opened Strings
  import opened Seqs

  /** The three filter dimensions of the selector. */
  datatype FilterType = Role | Company | Location

  const NotSpecified := "Not Specified"

  /** `job.location || "Not Specified"`: a missing and an empty location read
      the same. */
  function LocationLabel(j: Job): (r: string)
    ensures r == NotSpecified <==> j.location.None? || j.location.value in {"", NotSpecified}
    ensures r != NotSpecified ==> j.location == Some(r)
  {
    if j.location.Some? && j.location.value != "" then j.location.value else NotSpecified
  }

  /** The value a job shows in the selected dimension. */
  function FieldOf(j: Job, ft: FilterType): string
  {
    match ft
    case Role => j.jobTitle
    case Company => j.companyName
    case Location => LocationLabel(j)
  }

  function FieldValues(jobs: seq<Job>, ft: FilterType): (r: seq<string>)
    ensures |r| == |jobs|
    ensures forall i :: 0 <= i < |jobs| ==> r[i] == FieldOf(jobs[i], ft)
  {
    seq(|jobs|, i requires 0 <= i < |jobs| => FieldOf(jobs[i], ft))
  }

  /** `[...new Set(jobs.map(field))]`: every value of the dimension, once. */
  function FilterOptions(jobs: seq<Job>, ft: FilterType): (r: seq<string>)
    ensures NoDup(r)
    ensures forall v :: v in r <==> exists j :: j in jobs && FieldOf(j, ft) == v
  {
    var values := FieldValues(jobs, ft);
    assert forall v :: v in values <==> exists j :: j in jobs && FieldOf(j, ft) == v by {
      forall v ensures v in values <==> exists j :: j in jobs && FieldOf(j, ft) == v {
        if exists j :: j in jobs && FieldOf(j, ft) == v {
          var j :| j in jobs && FieldOf(j, ft) == v;
          var i :| 0 <= i < |jobs| && jobs[i] == j;
          assert values[i] == v;
        }
      }
    }
    Distinct(values)
  }

  /** The search test: the lower-cased value includes the lower-cased term. */
  predicate Matches(j: Job, ft: FilterType, term: string)
  {
    Contains(ToLower(FieldOf(j, ft)), ToLower(term))
  }

  /** A term equal to a job's value up to ASCII case finds that job. */
  lemma SameUpToCaseMatches(j: Job, ft: FilterType, term: string)
    requires |term| == |FieldOf(j, ft)|
    requires forall i :: 0 <= i < |term| ==> LowerChar(term[i]) == LowerChar(FieldOf(j, ft)[i])
    ensures Matches(j, ft, term)
  {
    var v := ToLower(FieldOf(j, ft));
    assert ToLower(term) == v;
    assert v <= v;
  }

  /** The search test ignores the case of the term: a term and its
      lower-cased form select the same jobs. */
  lemma SearchIgnoresTermCase(j: Job, ft: FilterType, term: string)
    ensures Matches(j, ft, ToLower(term)) == Matches(j, ft, term)
  {
    ToLowerIdempotent(term);
  }

  /** The jobs that pass the search test, in their order. */
  function MatchingJobs(jobs: seq<Job>, ft: FilterType, term: string): (r: seq<Job>)
    ensures forall j :: j in r <==> j in jobs && Matches(j, ft, term)
    ensures IsSubsequence(r, jobs)
  {
    var keep := (j: Job) => Matches(j, ft, term);
    FilterIsSubsequence(jobs, keep);
    Filter(jobs, keep)
  }

  /** `filteredJobs`: all jobs for an empty term, otherwise the matching ones. */
  function FilteredJobs(jobs: seq<Job>, ft: FilterType, term: string): (r: seq<Job>)
    ensures term == "" ==> r == jobs
    ensures term != "" ==> forall j :: j in r <==> j in jobs && Matches(j, ft, term)
    ensures IsSubsequence(r, jobs)
  {
    if term == "" then
      SubsequenceRefl(jobs);
      jobs
    else MatchingJobs(jobs, ft, term)
  }

  /** The empty-term shortcut agrees with the search test: every value
      includes the empty string. */
  lemma EmptyTermMatchesAll(jobs: seq<Job>, ft: FilterType)
    ensures MatchingJobs(jobs, ft, "") == jobs
  {
    forall i | 0 <= i < |jobs| ensures Matches(jobs[i], ft, "") {
      assert ToLower("") == "";
    }
    FilterAll(jobs, (j: Job) => Matches(j, ft, ""));
  }

  /** Every job the panel keeps passes the search test, whatever the term. */
  lemma FilteredJobsMatch(jobs: seq<Job>, ft: FilterType, term: string)
    ensures forall j :: j in FilteredJobs(jobs, ft, term) <==> j in jobs && Matches(j, ft, term)
  {
    if term == "" {
      EmptyTermMatchesAll(jobs, ft);
    }
  }

  // ---------------------------------------------------------------------------
  // Status counts
  // ---------------------------------------------------------------------------

  const Completed := "Completed"
  const Rejected := "Rejected"
  const InProgress := "In Progress"

  const CompletedColor := "#22c55e"
  const RejectedColor := "#ef4444"
  const InProgressColor := "#3b82f6"

  /** One slice of the status chart. */
  datatype StatusSlice = StatusSlice(name: string, value: nat, color: string)

  function WithStatus(jobs: seq<Job>, status: string): (r: seq<Job>)
    ensures forall j :: j in r <==> j in jobs && j.applicationStatus == status
  {
    Filter(jobs, (j: Job) => j.applicationStatus == status)
  }

  /** The jobs the chart leaves out, such as those "Not Started". */
  function OtherStatuses(jobs: seq<Job>): (r: seq<Job>)
    ensures forall j :: j in r <==> j in jobs && j.applicationStatus !in {Completed, Rejected, InProgress}
  {
    Filter(jobs, (j: Job) => j.applicationStatus !in {Completed, Rejected, InProgress})
  }

  /** `statusCounts`: three slices, always in this order. */
  function StatusCounts(filtered: seq<Job>): (r: seq<StatusSlice>)
    ensures |r| == 3
    ensures r[0].name == Completed && r[1].name == Rejected && r[2].name == InProgress
    ensures forall k :: 0 <= k < 3 ==> r[k].value == |WithStatus(filtered, r[k].name)|
  {
    [StatusSlice(Completed, |WithStatus(filtered, Completed)|, CompletedColor),
     StatusSlice(Rejected, |WithStatus(filtered, Rejected)|, RejectedColor),
     StatusSlice(InProgress, |WithStatus(filtered, InProgress)|, InProgressColor)]
  }

  /** Every job falls in exactly one of the three slices or among the others. */
  lemma {:induction false} StatusPartition(jobs: seq<Job>)
    ensures |WithStatus(jobs, Completed)| + |WithStatus(jobs, Rejected)|
          + |WithStatus(jobs, InProgress)| + |OtherStatuses(jobs)| == |jobs|
  {
    if jobs != [] {
      StatusPartition(jobs[1..]);
    }
  }

  /** The three counts never exceed the number of shown jobs; the gap is
      exactly the jobs with any other status. */
  lemma StatusCountsBound(filtered: seq<Job>)
    ensures var r := StatusCounts(filtered);
            r[0].value + r[1].value + r[2].value == |filtered| - |OtherStatuses(filtered)|
    ensures var r := StatusCounts(filtered);
            r[0].value + r[1].value + r[2].value <= |filtered|
  {
    StatusPartition(filtered);
  }

  // ---------------------------------------------------------------------------
  // The results list
  // ---------------------------------------------------------------------------

  /** The options the results list shows: those passing the search test. */
  function ShownOptions(jobs: seq<Job>, ft: FilterType, term: string): (r: seq<string>)
    ensures NoDup(r)
    ensures forall o :: o in r <==> o in FilterOptions(jobs, ft) && Contains(ToLower(o), ToLower(term))
  {
    var options := FilterOptions(jobs, ft);
    var shown := (o: string) => Contains(ToLower(o), ToLower(term));
    FilterNoDup(options, shown);
    Filter(options, shown)
  }

  /** The count beside one option: shown jobs whose value equals it exactly.
      It is positive as soon as one shown job has that value. */
  function OptionCount(filtered: seq<Job>, ft: FilterType, option: string): (n: nat)
    ensures n <= |filtered|
    ensures (exists j :: j in filtered && FieldOf(j, ft) == option) <==> n > 0
  {
    var same := Filter(filtered, (j: Job) => FieldOf(j, ft) == option);
    if same != [] then
      assert same[0] in same;
      |same|
    else |same|
  }

  function SumOptionCounts(filtered: seq<Job>, ft: FilterType, options: seq<string>): nat
  {
    if options == [] then 0
    else OptionCount(filtered, ft, options[0]) + SumOptionCounts(filtered, ft, options[1..])
  }

  lemma OptionCountCons(x: Job, rest: seq<Job>, ft: FilterType, option: string)
    ensures OptionCount([x] + rest, ft, option)
         == (if FieldOf(x, ft) == option then 1 else 0) + OptionCount(rest, ft, option)
  {
    assert ([x] + rest)[0] == x && ([x] + rest)[1..] == rest;
  }

  lemma {:induction false} SumOptionCountsCons(x: Job, rest: seq<Job>, ft: FilterType, options: seq<string>)
    ensures SumOptionCounts([x] + rest, ft, options)
         == Occurrences(options, FieldOf(x, ft)) + SumOptionCounts(rest, ft, options)
  {
    if options != [] {
      OptionCountCons(x, rest, ft, options[0]);
      SumOptionCountsCons(x, rest, ft, options[1..]);
    }
  }

  /** Counting per option over options that list every value once accounts
      for every job once. */
  lemma {:induction false} SumOptionCountsCovers(filtered: seq<Job>, ft: FilterType, options: seq<string>)
    requires NoDup(options)
    requires forall j :: j in filtered ==> FieldOf(j, ft) in options
    ensures SumOptionCounts(filtered, ft, options) == |filtered|
  {
    if filtered == [] {
      if options != [] {
        SumOptionCountsEmpty(ft, options);
      }
    } else {
      var x, rest := filtered[0], filtered[1..];
      assert filtered == [x] + rest;
      SumOptionCountsCons(x, rest, ft, options);
      OccurrencesNoDup(options, FieldOf(x, ft));
      SumOptionCountsCovers(rest, ft, options);
    }
  }

  lemma {:induction false} SumOptionCountsEmpty(ft: FilterType, options: seq<string>)
    ensures SumOptionCounts([], ft, options) == 0
  {
    if options != [] {
      SumOptionCountsEmpty(ft, options[1..]);
    }
  }

  /** The per-option counts of the results list add up to the number of
      shown jobs: the list and the job filter apply the same test. */
  lemma ShownCountsCoverFiltered(jobs: seq<Job>, ft: FilterType, term: string)
    ensures SumOptionCounts(FilteredJobs(jobs, ft, term), ft, ShownOptions(jobs, ft, term))
         == |FilteredJobs(jobs, ft, term)|
  {
    var filtered := FilteredJobs(jobs, ft, term);
    FilteredJobsMatch(jobs, ft, term);
    forall j | j in filtered ensures FieldOf(j, ft) in ShownOptions(jobs, ft, term) {
      assert Matches(j, ft, term);
    }
    SumOptionCountsCovers(filtered, ft, ShownOptions(jobs, ft, term));
  }

  // ---------------------------------------------------------------------------
  // The selector state
  // ---------------------------------------------------------------------------

  /** The panel's two pieces of state. */
  datatype View = View(filterType: FilterType, searchTerm: string)

  /** `useState("role")` and `useState("")`. */
  const InitialView := View(Role, "")

  /** The panel opens on the role dimension with every job shown. */
  lemma InitialViewShowsAll(jobs: seq<Job>)
    ensures InitialView.filterType == Role
    ensures FilteredJobs(jobs, InitialView.filterType, InitialView.searchTerm) == jobs
  {
  }

  /** Choosing a dimension also clears the search term, so the new view
      shows every job. */
  function SelectFilterType(v: View, ft: FilterType): (w: View)
    ensures w.filterType == ft
    ensures forall jobs :: FilteredJobs(jobs, w.filterType, w.searchTerm) == jobs
  {
    View(ft, "")
  }

  /** Typing a term keeps the dimension; the view then shows exactly the jobs
      passing the search test for that term. */
  function TypeSearchTerm(v: View, term: string): (w: View)
    ensures w.filterType == v.filterType && w.searchTerm == term
    ensures forall jobs, j :: j in FilteredJobs(jobs, v.filterType, term)
                              <==> j in jobs && Matches(j, v.filterType, term)
  {
    FilteredJobsMatchAll(v.filterType, term);
    View(v.filterType, term)
  }

  lemma FilteredJobsMatchAll(ft: FilterType, term: string)
    ensures forall jobs, j :: j in FilteredJobs(jobs, ft, term) <==> j in jobs && Matches(j, ft, term)
  {
    forall jobs: seq<Job> ensures forall j :: j in FilteredJobs(jobs, ft, term) <==> j in jobs && Matches(j, ft, term) {
      FilteredJobsMatch(jobs, ft, term);
    }
  }

  /** After choosing a dimension, every job is shown and every option listed. */
  lemma SelectFilterTypeShowsAll(jobs: seq<Job>, v: View, ft: FilterType)
    ensures var w := SelectFilterType(v, ft);
            FilteredJobs(jobs, w.filterType, w.searchTerm) == jobs
    ensures var w := SelectFilterType(v, ft);
            ShownOptions(jobs, w.filterType, w.searchTerm) == FilterOptions(jobs, ft)
  {
    var options := FilterOptions(jobs, ft);
    assert ToLower("") == "";
    forall i | 0 <= i < |options| ensures Contains(ToLower(options[i]), "") {
      assert [] <= ToLower(options[i]);
    }
    FilterAll(options, (o: string) => Contains(ToLower(o), ToLower("")));
  }
}
