/** The calendar panel: upcoming interviews grouped by day, the events of
    the selected day, and the predicate that highlights days with events. */
module Calendar {
  import opened Wrappers
  import opened Schema
  import opened Seqs

  const InterviewKind := "Interview"

  /** One entry of a day's list. */
  datatype Event = Event(kind: string, job: Job)

  /** `job.interviewDate && isFuture(job.interviewDate)` at instant `now`. */
  predicate Upcoming(j: Job, now: Date)
  {
    j.interviewDate.Some? && j.interviewDate.value > now
  }

  /** The jobs with an upcoming interview, in their order. */
  function UpcomingJobs(jobs: seq<Job>, now: Date): (r: seq<Job>)
    ensures forall j :: j in r <==> j in jobs && Upcoming(j, now)
  {
    Filter(jobs, (j: Job) => Upcoming(j, now))
  }

  /** The events filed under `key`: one per upcoming job whose interview falls
      on that day (`format(date, "yyyy-MM-dd")`, here the parameter dayKey),
      in the order of the jobs. */
  function EventsOn(jobs: seq<Job>, now: Date, dayKey: Date -> string, key: string): (r: seq<Event>)
    ensures |r| <= |jobs|
    ensures forall e :: e in r ==>
              e.kind == InterviewKind && e.job in jobs && Upcoming(e.job, now)
              && dayKey(e.job.interviewDate.value) == key
  {
    if jobs == [] then []
    else
      var last := jobs[|jobs| - 1];
      var earlier := EventsOn(jobs[..|jobs| - 1], now, dayKey, key);
      assert forall j :: j in jobs[..|jobs| - 1] ==> j in jobs;
      if Upcoming(last, now) && dayKey(last.interviewDate.value) == key
      then earlier + [Event(InterviewKind, last)]
      else earlier
  }

  /** `eventDates`: a key is present exactly when it has events, and then it
      holds those events. */
  ghost predicate GroupsEvents(m: map<string, seq<Event>>, jobs: seq<Job>, now: Date, dayKey: Date -> string)
  {
    forall key :: (key in m <==> EventsOn(jobs, now, dayKey, key) != [])
              && (key in m ==> m[key] == EventsOn(jobs, now, dayKey, key))
  }

  /** The number of events over all keys. */
  ghost function TotalEvents(m: map<string, seq<Event>>): nat
    decreases |m|
  {
    if m == map[] then 0
    else
      var key :| key in m;
      |m[key]| + TotalEvents(m - {key})
  }

  /** TotalEvents does not depend on which key it takes first. */
  lemma {:induction false} TotalEventsPick(m: map<string, seq<Event>>, key: string)
    requires key in m
    ensures TotalEvents(m) == |m[key]| + TotalEvents(m - {key})
    decreases |m|
  {
    var k :| k in m && TotalEvents(m) == |m[k]| + TotalEvents(m - {k});
    if k != key {
      var m' := m - {k};
      assert |m'| < |m| by { assert m'.Keys < m.Keys; }
      TotalEventsPick(m', key);
      var m'' := m - {key};
      assert |m''| < |m| by { assert m''.Keys < m.Keys; }
      TotalEventsPick(m'', k);
      assert m' - {key} == m'' - {k};
    }
  }

  /** Replacing one key's list changes the total by the difference. */
  lemma TotalEventsUpdate(m: map<string, seq<Event>>, key: string, v: seq<Event>)
    ensures TotalEvents(m[key := v]) + (if key in m then |m[key]| else 0) == TotalEvents(m) + |v|
  {
    var m' := m[key := v];
    TotalEventsPick(m', key);
    assert m' - {key} == m - {key};
    if key in m {
      TotalEventsPick(m, key);
    } else {
      assert m - {key} == m;
    }
  }

  /** The reduce over the jobs: each upcoming job is appended to its day's
      list, creating the list on first use. */
  method EventDates(jobs: seq<Job>, now: Date, dayKey: Date -> string)
    returns (m: map<string, seq<Event>>)
    ensures GroupsEvents(m, jobs, now, dayKey)
    ensures TotalEvents(m) == |UpcomingJobs(jobs, now)|
  {
    m := map[];
    var i := 0;
    ReducedStart(jobs, now, dayKey);
    while i < |jobs|
      invariant 0 <= i <= |jobs|
      invariant Reduced(m, jobs, i, now, dayKey)
    {
      var job := jobs[i];
      ghost var before := m;
      if job.interviewDate.Some? && job.interviewDate.value > now {
        var key := dayKey(job.interviewDate.value);
        if key !in m {
          m := m[key := []];
        }
        m := m[key := m[key] + [Event(InterviewKind, job)]];
      }
      assert m == AddEvent(before, job, now, dayKey);
      AddEventStep(before, m, jobs, i, now, dayKey);
      i := i + 1;
    }
    ReducedEnd(m, jobs, now, dayKey);
  }

  /** The loop invariant: the first i jobs are grouped and counted. */
  ghost predicate Reduced(m: map<string, seq<Event>>, jobs: seq<Job>, i: nat, now: Date, dayKey: Date -> string)
    requires i <= |jobs|
  {
    GroupsEvents(m, jobs[..i], now, dayKey) && TotalEvents(m) == |UpcomingJobs(jobs[..i], now)|
  }

  lemma ReducedStart(jobs: seq<Job>, now: Date, dayKey: Date -> string)
    ensures Reduced(map[], jobs, 0, now, dayKey)
  {
    assert jobs[..0] == [];
  }

  lemma ReducedEnd(m: map<string, seq<Event>>, jobs: seq<Job>, now: Date, dayKey: Date -> string)
    requires Reduced(m, jobs, |jobs|, now, dayKey)
    ensures GroupsEvents(m, jobs, now, dayKey)
    ensures TotalEvents(m) == |UpcomingJobs(jobs, now)|
  {
    assert jobs[..|jobs|] == jobs;
  }

  /** The accumulator after one step of the reduce. */
  ghost function AddEvent(m: map<string, seq<Event>>, job: Job, now: Date, dayKey: Date -> string): map<string, seq<Event>>
  {
    if Upcoming(job, now) then
      var key := dayKey(job.interviewDate.value);
      m[key := (if key in m then m[key] else []) + [Event(InterviewKind, job)]]
    else m
  }

  /** One step of the reduce keeps the loop's two invariants. */
  lemma AddEventStep(before: map<string, seq<Event>>, after: map<string, seq<Event>>,
                     jobs: seq<Job>, i: nat, now: Date, dayKey: Date -> string)
    requires i < |jobs|
    requires Reduced(before, jobs, i, now, dayKey)
    requires after == AddEvent(before, jobs[i], now, dayKey)
    ensures Reduced(after, jobs, i + 1, now, dayKey)
  {
    var job := jobs[i];
    assert jobs[..i + 1] == jobs[..i] + [job];
    UpcomingJobsAppend(jobs[..i], job, now);
    AddEventGroups(before, jobs[..i], job, now, dayKey);
    if Upcoming(job, now) {
      var key := dayKey(job.interviewDate.value);
      TotalEventsUpdate(before, key, after[key]);
    }
  }

  lemma AddEventGroups(m: map<string, seq<Event>>, init: seq<Job>, job: Job, now: Date, dayKey: Date -> string)
    requires GroupsEvents(m, init, now, dayKey)
    ensures GroupsEvents(AddEvent(m, job, now, dayKey), init + [job], now, dayKey)
  {
    var jobs := init + [job];
    assert jobs[..|jobs| - 1] == init;
    assert forall key :: (EventsOn(jobs, now, dayKey, key) ==
      EventsOn(init, now, dayKey, key)
      + (if Upcoming(job, now) && dayKey(job.interviewDate.value) == key then [Event(InterviewKind, job)] else []));
  }

  lemma UpcomingJobsAppend(init: seq<Job>, job: Job, now: Date)
    ensures |UpcomingJobs(init + [job], now)| == |UpcomingJobs(init, now)| + (if Upcoming(job, now) then 1 else 0)
  {
    var p := (j: Job) => Upcoming(j, now);
    FilterConcat(init, [job], p);
    assert [job][1..] == [];
  }

  /** A day has events exactly when some job has an upcoming interview on it. */
  lemma {:induction false} EventsOnNonEmpty(jobs: seq<Job>, now: Date, dayKey: Date -> string, key: string)
    ensures EventsOn(jobs, now, dayKey, key) != [] <==>
            exists j :: j in jobs && Upcoming(j, now) && dayKey(j.interviewDate.value) == key
  {
    if jobs != [] {
      var init := jobs[..|jobs| - 1];
      EventsOnNonEmpty(init, now, dayKey, key);
      assert jobs == init + [jobs[|jobs| - 1]];
    }
  }

  /** Each upcoming job yields exactly one event, under its own day, and a
      day's events follow the order of the jobs. */
  lemma {:induction false} EventsOnFollowsJobs(jobs: seq<Job>, now: Date, dayKey: Date -> string, key: string)
    ensures JobsOf(EventsOn(jobs, now, dayKey, key))
         == Filter(jobs, (j: Job) => Upcoming(j, now) && dayKey(j.interviewDate.value) == key)
  {
    var p := (j: Job) => Upcoming(j, now) && dayKey(j.interviewDate.value) == key;
    if jobs != [] {
      EventsOnFollowsJobs(jobs[..|jobs| - 1], now, dayKey, key);
      EventsOnLast(jobs, now, dayKey, key);
      FilterLast(jobs, p);
    }
  }

  /** The last job adds its own event, if any, after those of the others. */
  lemma EventsOnLast(jobs: seq<Job>, now: Date, dayKey: Date -> string, key: string)
    requires jobs != []
    ensures var last := jobs[|jobs| - 1];
            JobsOf(EventsOn(jobs, now, dayKey, key))
            == JobsOf(EventsOn(jobs[..|jobs| - 1], now, dayKey, key))
               + (if Upcoming(last, now) && dayKey(last.interviewDate.value) == key then [last] else [])
  {
    var last := jobs[|jobs| - 1];
    var tail := if Upcoming(last, now) && dayKey(last.interviewDate.value) == key then [Event(InterviewKind, last)] else [];
    JobsOfAppend(EventsOn(jobs[..|jobs| - 1], now, dayKey, key), tail);
  }

  function JobsOf(events: seq<Event>): (r: seq<Job>)
    ensures |r| == |events|
    ensures forall i :: 0 <= i < |events| ==> r[i] == events[i].job
  {
    seq(|events|, i requires 0 <= i < |events| => events[i].job)
  }

  lemma JobsOfAppend(a: seq<Event>, b: seq<Event>)
    ensures JobsOf(a + b) == JobsOf(a) + JobsOf(b)
  {
  }

  /** `selectedDateEvents`: the selected day's list, or nothing. With no day
      selected the key is the empty string. */
  function SelectedDayEvents(m: map<string, seq<Event>>, selected: Option<Date>, dayKey: Date -> string): (r: seq<Event>)
    ensures selected.Some? && dayKey(selected.value) in m ==> r == m[dayKey(selected.value)]
    ensures selected.Some? && dayKey(selected.value) !in m ==> r == []
    ensures selected.None? ==> r == (if "" in m then m[""] else [])
  {
    var key := if selected.Some? then dayKey(selected.value) else "";
    if key in m then m[key] else []
  }

  /** `modifiers.event`: the day has an entry in the map. A highlighted day
      shows its stored list when selected; any other shows nothing. */
  function HasEvent(m: map<string, seq<Event>>, d: Date, dayKey: Date -> string): (r: bool)
    ensures r ==> dayKey(d) in m && SelectedDayEvents(m, Some(d), dayKey) == m[dayKey(d)]
    ensures !r ==> SelectedDayEvents(m, Some(d), dayKey) == []
  {
    dayKey(d) in m
  }

  /** The selected day's events are exactly the events on that day; with no
      day selected (and no day keyed by the empty string) there are none. */
  lemma SelectedDayEventsAre(m: map<string, seq<Event>>, jobs: seq<Job>, now: Date,
                             dayKey: Date -> string, selected: Option<Date>)
    requires GroupsEvents(m, jobs, now, dayKey)
    ensures selected.Some? ==>
              SelectedDayEvents(m, selected, dayKey) == EventsOn(jobs, now, dayKey, dayKey(selected.value))
    ensures selected.None? && (forall d :: dayKey(d) != "") ==>
              SelectedDayEvents(m, selected, dayKey) == []
  {
    EventsOnNonEmpty(jobs, now, dayKey, "");
  }

  /** A day is highlighted exactly when some job has an upcoming interview
      on that day. */
  lemma HasEventIff(m: map<string, seq<Event>>, jobs: seq<Job>, now: Date, dayKey: Date -> string, d: Date)
    requires GroupsEvents(m, jobs, now, dayKey)
    ensures HasEvent(m, d, dayKey) <==>
            exists j :: j in jobs && Upcoming(j, now) && dayKey(j.interviewDate.value) == dayKey(d)
  {
    EventsOnNonEmpty(jobs, now, dayKey, dayKey(d));
  }
}
