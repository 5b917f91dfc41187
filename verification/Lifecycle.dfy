/** Collapsing the observed states of a job's cluster objects into one job lifecycle. */
module Lifecycle {
  import opened Contracts

  const QUEUED := "queued"
  const RUNNING := "running"
  const COMPLETED := "completed"
  const FAILED := "failed"

  datatype JobLifecycle = JobLifecycle(
    jobId: string, ns: string, status: string, reason: string,
    startedAt: Option<int>, completedAt: Option<int>, found: bool)

  predicate Known(ss: seq<JobLifecycle>) {
    forall i :: 0 <= i < |ss| ==> ss[i].status in {QUEUED, RUNNING, COMPLETED, FAILED}
  }

  // ---------------------------------------------------------------- the code's functions

  function Earlier(base: Option<int>, t: Option<int>): Option<int> {
    if t.Some? && (base.None? || t.value < base.value) then t else base
  }

  function Later(base: Option<int>, t: Option<int>): Option<int> {
    if t.Some? && (base.None? || t.value > base.value) then t else base
  }

  function Merge(base: JobLifecycle, s: JobLifecycle): JobLifecycle {
    base.(startedAt := Earlier(base.startedAt, s.startedAt), completedAt := Later(base.completedAt, s.completedAt))
  }

  function MergeAll(base: JobLifecycle, ss: seq<JobLifecycle>): JobLifecycle
    decreases |ss|
  {
    if |ss| == 0 then base else MergeAll(Merge(base, ss[0]), ss[1..])
  }

  /** firstLifecycleStatus. */
  function First(ss: seq<JobLifecycle>, status: string): Option<JobLifecycle> {
    if |ss| == 0 then None else if ss[0].status == status then Some(ss[0]) else First(ss[1..], status)
  }

  function FirstTime(a: Option<int>, b: Option<int>): Option<int> { if a.Some? then a else b }

  /** collapseLifecycleStatuses. */
  function Collapse(base: JobLifecycle, ss: seq<JobLifecycle>): JobLifecycle {
    if |ss| == 0 then base
    else
      var merged := MergeAll(base.(found := true), ss);
      var failed, running := First(ss, FAILED), First(ss, RUNNING);
      var queued, completed := First(ss, QUEUED), First(ss, COMPLETED);
      if failed.Some? then
        merged.(status := FAILED, reason := failed.value.reason,
                completedAt := FirstTime(merged.completedAt, failed.value.completedAt))
      else if running.Some? then merged.(status := RUNNING, reason := running.value.reason)
      else if queued.Some? then merged.(status := QUEUED, reason := queued.value.reason)
      else if completed.Some? then
        merged.(status := COMPLETED, reason := completed.value.reason,
                completedAt := FirstTime(merged.completedAt, completed.value.completedAt))
      else merged.(status := COMPLETED)
  }

  // ---------------------------------------------------------------- what the result means

  predicate Occurs(ss: seq<JobLifecycle>, status: string) { exists i :: 0 <= i < |ss| && ss[i].status == status }

  lemma {:induction false} FirstIff(ss: seq<JobLifecycle>, status: string)
    ensures First(ss, status).Some? <==> Occurs(ss, status)
    ensures First(ss, status).Some? ==> First(ss, status).value in ss && First(ss, status).value.status == status
  {
    if |ss| > 0 && ss[0].status != status {
      FirstIff(ss[1..], status);
      if Occurs(ss, status) {
        var i :| 0 <= i < |ss| && ss[i].status == status;
        assert ss[1..][i - 1].status == status;
      }
    }
  }

  /** State i is the first with the status. */
  predicate IsFirst(ss: seq<JobLifecycle>, status: string, i: nat) {
    i < |ss| && ss[i].status == status && forall j :: 0 <= j < i ==> ss[j].status != status
  }

  lemma {:induction false} FirstIsFirst(ss: seq<JobLifecycle>, status: string)
    requires First(ss, status).Some?
    ensures exists i: nat :: IsFirst(ss, status, i) && ss[i] == First(ss, status).value
  {
    if ss[0].status == status {
      assert IsFirst(ss, status, 0);
    } else {
      FirstIsFirst(ss[1..], status);
      var i: nat :| IsFirst(ss[1..], status, i) && ss[1..][i] == First(ss[1..], status).value;
      assert forall j :: 1 <= j < |ss| ==> ss[j] == ss[1..][j - 1];
      assert IsFirst(ss, status, i + 1);
    }
  }

  /** The reason is that of the first state with the resulting status. */
  lemma {:induction false} ReasonIsOfFirst(base: JobLifecycle, ss: seq<JobLifecycle>)
    requires |ss| > 0 && Occurs(ss, Collapse(base, ss).status)
    ensures var r := Collapse(base, ss); exists i: nat :: IsFirst(ss, r.status, i) && r.reason == ss[i].reason
  {
    var r := Collapse(base, ss);
    FirstIff(ss, FAILED);
    FirstIff(ss, RUNNING);
    FirstIff(ss, QUEUED);
    FirstIff(ss, COMPLETED);
    FirstIsFirst(ss, r.status);
  }

  /** The time is the base's or an observed one, and none of them is earlier. */
  ghost predicate Earliest(r: Option<int>, base: Option<int>, ss: seq<JobLifecycle>) {
    && (r == base || exists s :: s in ss && s.startedAt == r)
    && (base.Some? ==> r.Some? && r.value <= base.value)
    && forall s :: s in ss && s.startedAt.Some? ==> r.Some? && r.value <= s.startedAt.value
  }

  ghost predicate Latest(r: Option<int>, base: Option<int>, ss: seq<JobLifecycle>) {
    && (r == base || exists s :: s in ss && s.completedAt == r)
    && (base.Some? ==> r.Some? && r.value >= base.value)
    && forall s :: s in ss && s.completedAt.Some? ==> r.Some? && r.value >= s.completedAt.value
  }

  lemma {:induction false} MergedTimes(base: JobLifecycle, ss: seq<JobLifecycle>)
    ensures var m := MergeAll(base, ss);
      && Earliest(m.startedAt, base.startedAt, ss) && Latest(m.completedAt, base.completedAt, ss)
      && m == base.(startedAt := m.startedAt, completedAt := m.completedAt)
    decreases |ss|
  {
    if |ss| > 0 {
      MergedTimes(Merge(base, ss[0]), ss[1..]);
      assert ss[0] in ss && forall s :: s in ss <==> s == ss[0] || s in ss[1..];
    }
  }

  /** The result: worst status first, the earliest start, the latest completion; identity fields are the base's. */
  lemma {:induction false} CollapseMeans(base: JobLifecycle, ss: seq<JobLifecycle>)
    requires |ss| > 0
    ensures var r := Collapse(base, ss);
      && r.found && r.jobId == base.jobId && r.ns == base.ns
      && (r.status == FAILED <==> Occurs(ss, FAILED))
      && (r.status == RUNNING <==> !Occurs(ss, FAILED) && Occurs(ss, RUNNING))
      && (r.status == QUEUED <==> !Occurs(ss, FAILED) && !Occurs(ss, RUNNING) && Occurs(ss, QUEUED))
      && (r.status == COMPLETED <==> !Occurs(ss, FAILED) && !Occurs(ss, RUNNING) && !Occurs(ss, QUEUED))
      && Earliest(r.startedAt, base.startedAt, ss) && Latest(r.completedAt, base.completedAt, ss)
  {
    MergedTimes(base.(found := true), ss);
    FirstIff(ss, FAILED);
    FirstIff(ss, RUNNING);
    FirstIff(ss, QUEUED);
    FirstIff(ss, COMPLETED);
  }

  /** Status and times depend only on which states were observed, not on their order or number. */
  lemma {:induction false} OrderDoesNotMatter(base: JobLifecycle, a: seq<JobLifecycle>, b: seq<JobLifecycle>)
    requires |a| > 0 && |b| > 0 && forall s :: s in a <==> s in b
    ensures Collapse(base, a).(reason := "") == Collapse(base, b).(reason := "")
  {
    CollapseMeans(base, a);
    CollapseMeans(base, b);
    forall status ensures Occurs(a, status) <==> Occurs(b, status) {
      SameOccurs(a, b, status);
      SameOccurs(b, a, status);
    }
  }

  lemma SameOccurs(a: seq<JobLifecycle>, b: seq<JobLifecycle>, status: string)
    requires forall s :: s in a ==> s in b
    ensures Occurs(a, status) ==> Occurs(b, status)
  {
    if Occurs(a, status) {
      var i :| 0 <= i < |a| && a[i].status == status;
      assert a[i] in b;
    }
  }

  // ---------------------------------------------------------------- collapsing in two stages

  /** NativeJobLifecycle: native objects are collapsed first, then together with the scheduler's own objects. */
  function TwoStage(base: JobLifecycle, native: seq<JobLifecycle>, volcano: seq<JobLifecycle>): JobLifecycle {
    var inner := Collapse(base, native);
    Collapse(base, (if inner.found then [inner] else []) + volcano)
  }

  lemma {:induction false} MergeConcat(base: JobLifecycle, a: seq<JobLifecycle>, b: seq<JobLifecycle>)
    ensures MergeAll(base, a + b) == MergeAll(MergeAll(base, a), b)
    decreases |a|
  {
    if |a| == 0 {
      assert a + b == b;
    } else {
      assert (a + b)[1..] == a[1..] + b;
      MergeConcat(Merge(base, a[0]), a[1..], b);
    }
  }

  lemma {:induction false} FirstConcat(a: seq<JobLifecycle>, b: seq<JobLifecycle>, status: string)
    ensures First(a + b, status) == if First(a, status).Some? then First(a, status) else First(b, status)
  {
    if |a| == 0 {
      assert a + b == b;
    } else {
      assert (a + b)[1..] == a[1..] + b;
      FirstConcat(a[1..], b, status);
    }
  }

  /** A completion time of a chosen state is already merged, so falling back to it changes nothing. */
  lemma {:induction false} CollapseTimes(base: JobLifecycle, ss: seq<JobLifecycle>)
    requires |ss| > 0
    ensures var r, m := Collapse(base, ss), MergeAll(base.(found := true), ss);
      r == m.(status := r.status, reason := r.reason)
  {
    MergedTimes(base.(found := true), ss);
    FirstIff(ss, FAILED);
    FirstIff(ss, COMPLETED);
  }

  /** Merging a collapsed stage is merging the states it came from. */
  lemma {:induction false} MergeStage(base: JobLifecycle, a: seq<JobLifecycle>, b: seq<JobLifecycle>)
    requires |a| > 0
    ensures MergeAll(base.(found := true), [Collapse(base, a)] + b) == MergeAll(base.(found := true), a + b)
  {
    var f, inner := base.(found := true), Collapse(base, a);
    CollapseTimes(base, a);
    MergedTimes(f, a);
    MergeConcat(f, a, b);
    MergeConcat(f, [inner], b);
    assert MergeAll(f, [inner]) == Merge(f, inner) by { assert [inner][1..] == []; }
  }

  lemma {:induction false} SomeStatus(a: seq<JobLifecycle>)
    requires |a| > 0 && Known(a)
    ensures Occurs(a, FAILED) || Occurs(a, RUNNING) || Occurs(a, QUEUED) || Occurs(a, COMPLETED)
  {
    assert a[0].status in {QUEUED, RUNNING, COMPLETED, FAILED};
  }

  /** What the collapse reports as the state of its status: it stands for the whole stage in a later collapse. */
  lemma {:induction false} StageStatus(base: JobLifecycle, a: seq<JobLifecycle>)
    requires |a| > 0 && Known(a)
    ensures var r := Collapse(base, a); First(a, r.status).Some? && First(a, r.status).value.reason == r.reason
    ensures var r := Collapse(base, a); r.status in {QUEUED, RUNNING, COMPLETED, FAILED}
    ensures var r := Collapse(base, a);
      && (r.status != FAILED ==> First(a, FAILED).None?)
      && (r.status in {QUEUED, COMPLETED} ==> First(a, RUNNING).None?)
      && (r.status == COMPLETED ==> First(a, QUEUED).None?)
  {
    SomeStatus(a);
    FirstIff(a, FAILED);
    FirstIff(a, RUNNING);
    FirstIff(a, QUEUED);
    FirstIff(a, COMPLETED);
  }

  /** Collapsing in two stages loses nothing: it equals collapsing all observed states at once. */
  lemma {:induction false} TwoStagesAreOne(base: JobLifecycle, native: seq<JobLifecycle>, volcano: seq<JobLifecycle>)
    requires !base.found && Known(native)
    ensures TwoStage(base, native, volcano) == Collapse(base, native + volcano)
  {
    if |native| == 0 {
      assert native + volcano == volcano && [] + volcano == volcano;
    } else {
      var inner := Collapse(base, native);
      CollapseMeans(base, native);
      StageStatus(base, native);
      var staged, flat := [inner] + volcano, native + volcano;
      MergeStage(base, native, volcano);
      CollapseTimes(base, staged);
      CollapseTimes(base, flat);
      SameChoice(base, native, volcano);
    }
  }

  lemma {:induction false} SameChoice(base: JobLifecycle, native: seq<JobLifecycle>, volcano: seq<JobLifecycle>)
    requires |native| > 0 && Known(native)
    ensures var staged, flat := Collapse(base, [Collapse(base, native)] + volcano), Collapse(base, native + volcano);
      staged.status == flat.status && staged.reason == flat.reason
  {
    var inner := Collapse(base, native);
    StageStatus(base, native);
    FirstAfter(inner, volcano, FAILED);
    FirstAfter(inner, volcano, RUNNING);
    FirstAfter(inner, volcano, QUEUED);
    FirstAfter(inner, volcano, COMPLETED);
    FirstConcat(native, volcano, FAILED);
    FirstConcat(native, volcano, RUNNING);
    FirstConcat(native, volcano, QUEUED);
    FirstConcat(native, volcano, COMPLETED);
  }

  lemma {:induction false} FirstAfter(x: JobLifecycle, ss: seq<JobLifecycle>, status: string)
    ensures First([x] + ss, status) == if x.status == status then Some(x) else First(ss, status)
  {
    assert ([x] + ss)[1..] == ss;
  }

  // ---------------------------------------------------------------- the loops

  method FirstLifecycleStatus(ss: seq<JobLifecycle>, status: string) returns (r: Option<JobLifecycle>)
    ensures r == First(ss, status)
  {
    for i := 0 to |ss|
      invariant First(ss, status) == First(ss[i..], status)
    {
      assert ss[i..][1..] == ss[i + 1..];
      if ss[i].status == status {
        return Some(ss[i]);
      }
    }
    r := None;
  }

  method CollapseLifecycleStatuses(start: JobLifecycle, ss: seq<JobLifecycle>) returns (base: JobLifecycle)
    ensures base == Collapse(start, ss)
  {
    base := start;
    if |ss| == 0 {
      return;
    }
    base := base.(found := true);
    for i := 0 to |ss|
      invariant MergeAll(base, ss[i..]) == MergeAll(start.(found := true), ss)
    {
      assert ss[i..][1..] == ss[i + 1..];
      base := Merge(base, ss[i]);
    }
    var chosen := FirstLifecycleStatus(ss, FAILED);
    if chosen.Some? {
      base := base.(status := FAILED, reason := chosen.value.reason,
                    completedAt := FirstTime(base.completedAt, chosen.value.completedAt));
      return;
    }
    chosen := FirstLifecycleStatus(ss, RUNNING);
    if chosen.Some? {
      base := base.(status := RUNNING, reason := chosen.value.reason);
      return;
    }
    chosen := FirstLifecycleStatus(ss, QUEUED);
    if chosen.Some? {
      base := base.(status := QUEUED, reason := chosen.value.reason);
      return;
    }
    base := base.(status := COMPLETED);
    chosen := FirstLifecycleStatus(ss, COMPLETED);
    if chosen.Some? {
      base := base.(reason := chosen.value.reason, completedAt := FirstTime(base.completedAt, chosen.value.completedAt));
    }
  }
}
