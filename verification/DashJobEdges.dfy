/** What a reconcile of a job does in every state, wherever its calls fail. */
module DashJobEdges {
  import opened Results
  import opened Calls
  import opened DashJob
  import opened DashJobSafety

  // ------------------------------------------------------------------ calls

  /** All calls succeeded but the last one. */
  ghost predicate LastFails(f: Faults, a: nat, b: nat) {
    a < b && FineIn(f, a, b - 1) && f(b - 1) != Fine
  }

  /** A call that is refused has no effect, and any other one has; only a call that is
      fine is seen to succeed. */
  lemma CallExactly(f: Faults, c: Cluster, after: Cluster)
    requires after.calls == c.calls
    ensures var (c', ok) := Call(f, c, after);
            && c'.calls == c.calls + 1
            && (ok <==> f(c.calls) == Fine)
            && (f(c.calls) == Refused ==> c'.job == c.job && c'.live == c.live)
            && (f(c.calls) != Refused ==> c'.job == after.job && c'.live == after.live)
  {
  }

  /** The resource has to be created, patched or deleted: an immutable one that is there
      is left alone, as is a claim and whatever is not there when deleting. */
  predicate NeedsCall(op: Operation, r: Resource, present: bool) {
    match op
    case Create => !present || !r.immutable
    case Delete => present && !r.claim
  }

  lemma TriedExactly(f: Faults, c: Cluster, op: Operation, r: Resource)
    ensures var (c', ok) := Tried(f, c, op, r, r in c.live);
            if !NeedsCall(op, r, r in c.live) then ok && c' == c
            else
              && c'.calls == c.calls + 1 && c'.job == c.job && (ok <==> f(c.calls) == Fine)
              && c'.live == if f(c.calls) == Refused then c.live else if op.Create? then c.live + {r} else c.live - {r}
  {
  }

  /** The live resources after all of `rs` were worked through. */
  function Worked(op: Operation, live: set<Resource>, rs: seq<Resource>): set<Resource> {
    match op
    case Create => live + set r | r in rs
    case Delete => live - set r | r in rs && !r.claim
  }

  ghost predicate WorkedSome(op: Operation, before: set<Resource>, after: set<Resource>, rs: seq<Resource>) {
    exists k :: 0 <= k <= |rs| && after == Worked(op, before, rs[..k])
  }

  /** A round of calls succeeded, one after the other, or stopped at the first that failed. */
  ghost predicate Stopped(f: Faults, c: Cluster, c': Cluster, ok: bool) {
    && c'.job == c.job
    && (if ok then c.calls <= c'.calls && FineIn(f, c.calls, c'.calls) else LastFails(f, c.calls, c'.calls))
  }

  lemma StoppedJoins(f: Faults, a: Cluster, b: Cluster, c: Cluster, ok: bool)
    requires Stopped(f, a, b, true) && Stopped(f, b, c, ok)
    ensures Stopped(f, a, c, ok)
  {
  }

  lemma WorkedNext(op: Operation, live: set<Resource>, r: Resource, rest: seq<Resource>)
    ensures Worked(op, live, [r] + rest) == Worked(op, Worked(op, live, [r]), rest)
    ensures Worked(op, live, []) == live
    ensures Worked(op, live, [r]) == if op.Create? then live + {r} else if r.claim then live else live - {r}
    ensures forall after :: WorkedSome(op, Worked(op, live, [r]), after, rest) ==> WorkedSome(op, live, after, [r] + rest)
  {
    forall after | WorkedSome(op, Worked(op, live, [r]), after, rest) ensures WorkedSome(op, live, after, [r] + rest) {
      var k :| 0 <= k <= |rest| && after == Worked(op, Worked(op, live, [r]), rest[..k]);
      assert ([r] + rest)[..k + 1] == [r] + rest[..k];
    }
  }

  lemma {:induction false} LoopedExactly(f: Faults, c: Cluster, op: Operation, rs: seq<Resource>)
    ensures var (c', ok) := Looped(f, c, op, rs);
            && Stopped(f, c, c', ok)
            && (ok ==> c'.calls >= c.calls + |rs| && c'.live == Worked(op, c.live, rs))
            && (!ok ==> WorkedSome(op, c.live, c'.live, rs))
    decreases |rs|
  {
    if rs == [] {
      assert Worked(op, c.live, []) == c.live;
    } else {
      var got := Call(f, c, c);
      assert rs == [rs[0]] + rs[1..] && rs[..0] == [] && rs[..1] == [rs[0]];
      WorkedNext(op, c.live, rs[0], rs[1..]);
      if got.1 {
        TriedExactly(f, got.0, op, rs[0]);
        var tried := Tried(f, got.0, op, rs[0], rs[0] in c.live);
        assert Stopped(f, c, tried.0, tried.1);
        if tried.1 {
          assert tried.0.live == Worked(op, c.live, [rs[0]]);
          LoopedExactly(f, tried.0, op, rs[1..]);
          StoppedJoins(f, c, tried.0, Looped(f, tried.0, op, rs[1..]).0, Looped(f, tried.0, op, rs[1..]).1);
        } else {
          assert tried.0.live == Worked(op, c.live, rs[..0]) || tried.0.live == Worked(op, c.live, rs[..1]);
        }
      } else {
        assert got.0.live == Worked(op, c.live, rs[..0]);
      }
    }
  }

  /** Creating or deleting all resources: with no failed call all are worked through, and
      otherwise the ones before the first failed call. */
  lemma ExecutedExactly(f: Faults, c: Cluster, op: Operation, rs: seq<Resource>)
    ensures var (c', ok) := Executed(f, c, op, rs);
            && Stopped(f, c, c', ok) && c'.calls > c.calls
            && (ok ==> c'.live == Worked(op, c.live, rs))
            && (!ok ==> WorkedSome(op, c.live, c'.live, rs))
  {
    var loaded := Call(f, c, c);
    if loaded.1 {
      LoopedExactly(f, loaded.0, op, rs);
      var r := Looped(f, loaded.0, op, rs);
      StoppedJoins(f, c, loaded.0, r.0, r.1);
    } else {
      assert rs[..0] == [] && loaded.0.live == Worked(op, c.live, []);
    }
  }

  lemma {:induction false} FoundExactly(f: Faults, c: Cluster, rs: seq<Resource>)
    ensures var (c', found) := Found(f, c, rs);
            && c'.live == c.live && Stopped(f, c, c', found.Some?)
            && (found.Some? ==> (found.value <==> forall r :: r in rs ==> r in c.live))
            && (found == Some(true) ==> c'.calls >= c.calls + |rs|)
    decreases |rs|
  {
    if rs != [] {
      var got := Call(f, c, c);
      assert rs == [rs[0]] + rs[1..];
      if got.1 && rs[0] in c.live {
        FoundExactly(f, got.0, rs[1..]);
        var r := Found(f, got.0, rs[1..]);
        StoppedJoins(f, c, got.0, r.0, r.1.Some?);
      }
    }
  }

  lemma ExistingExactly(f: Faults, c: Cluster, rs: seq<Resource>)
    ensures var (c', found) := Existing(f, c, rs);
            && c'.live == c.live && c'.calls > c.calls && Stopped(f, c, c', found.Some?)
            && (found.Some? ==> (found.value <==> forall r :: r in rs ==> r in c.live))
  {
    var loaded := Call(f, c, c);
    if loaded.1 {
      FoundExactly(f, loaded.0, rs);
      var r := Found(f, loaded.0, rs);
      StoppedJoins(f, c, loaded.0, r.0, r.1.Some?);
    }
  }

  // -------------------------------------------------------------- reconciles

  function StateOf(job: JobObject): State {
    match job.status case None => Pending case Some(status) => status.state
  }

  /** One call, which puts `next` in the place of the job unless it is refused. */
  ghost predicate OneCall(f: Faults, c: Cluster, c': Cluster, next: JobObject) {
    c'.calls == c.calls + 1 && c'.live == c.live && c'.job == if f(c.calls) == Refused then c.job else Some(next)
  }

  /** A pending job: the creation is followed by one status call. The status is `Running`
      if all calls of the creation succeeded, and every resource is live then; otherwise
      it is `Error`, and a rollback without failures has removed all but claims. */
  ghost predicate IsStarted(f: Faults, c: Cluster, c': Cluster, rs: seq<Resource>, now: Time)
    requires c.job.Some?
  {
    && c'.calls >= c.calls + 2
    && var last := c'.calls - 1;
    var created := FineIn(f, c.calls, last);
    && c'.job == (if f(last) == Refused then c.job
                  else Some(c.job.value.(status := Some(Status(if created then Running else Error, now)))))
    && (created ==> c'.live == c.live + set r | r in rs)
    && (!created ==> exists end: nat :: end <= last && LastFails(f, c.calls, end) && IsRolledBack(f, end, last, c', rs))
  }

  ghost predicate IsRolledBack(f: Faults, end: nat, last: nat, c': Cluster, rs: seq<Resource>) {
    FineIn(f, end, last) ==> forall r :: r in rs && !r.claim ==> r !in c'.live
  }

  /** All calls succeeded, or the job is as it was, unless the last one took effect. */
  ghost predicate Finishes(f: Faults, c: Cluster, c': Cluster, rs: seq<Resource>, next: Option<JobObject>) {
    && c'.calls > c.calls
    && WorkedSome(Delete, c.live, c'.live, rs)
    && (FineIn(f, c.calls, c'.calls) ==> c'.job == next && c'.live == Worked(Delete, c.live, rs))
    && (c'.job != c.job ==>
          c'.job == next && c'.live == Worked(Delete, c.live, rs) && FineIn(f, c.calls, c'.calls - 1) && f(c'.calls - 1) != Refused)
  }

  /** What a reconcile does to a job in each state. */
  ghost predicate IsReconciled(f: Faults, c: Cluster, c': Cluster, rs: seq<Resource>, now: Time)
    requires c.job.Some?
  {
    var job := c.job.value;
    if job.deleting && StateOf(job) != Deleting then OneCall(f, c, c', job.(status := Some(Status(Deleting, now))))
    else if !job.finalizer then OneCall(f, c, c', if job.deleting then job else job.(finalizer := true))
    else
      match StateOf(job)
      case Pending => IsStarted(f, c, c', rs, now)
      case Running =>
        if forall r :: r in rs ==> r in c.live then c'.job == c.job && c'.live == c.live
        else Finishes(f, c, c', rs, Some(job.(status := Some(Status(Completed, now)))))
      case Deleting => Finishes(f, c, c', rs, if job.deleting then None else Some(job.(finalizer := false)))
      case _ =>
        if now - job.status.value.updated < 1200 then c' == c else OneCall(f, c, c', job.(deleting := true))
  }

  lemma StartedExactly(f: Faults, c: Cluster, rs: seq<Resource>, now: Time)
    requires c.job.Some? && c.job.value.finalizer && !c.job.value.deleting && StateOf(c.job.value) == Pending
    ensures IsStarted(f, c, Reconciled(f, c, rs, now), rs, now)
  {
    var (done, ok) := Executed(f, c, Create, rs);
    ExecutedExactly(f, c, Create, rs);
    if !ok {
      ExecutedExactly(f, done, Delete, rs);
      var back := Executed(f, done, Delete, rs);
      assert LastFails(f, c.calls, done.calls) && !FineIn(f, c.calls, back.0.calls);
      assert IsRolledBack(f, done.calls, back.0.calls, back.0, rs);
    }
  }

  lemma AllWorked(op: Operation, live: set<Resource>, rs: seq<Resource>)
    ensures WorkedSome(op, live, Worked(op, live, rs), rs)
    ensures WorkedSome(op, live, live, rs)
  {
    assert rs[..|rs|] == rs && rs[..0] == [];
    assert Worked(op, live, rs[..0]) == live;
  }

  lemma CompletedExactly(f: Faults, c: Cluster, rs: seq<Resource>, now: Time)
    requires c.job.Some? && c.job.value.finalizer && !c.job.value.deleting && StateOf(c.job.value) == Running
    ensures var c' := Reconciled(f, c, rs, now);
            if forall r :: r in rs ==> r in c.live then c'.job == c.job && c'.live == c.live
            else Finishes(f, c, c', rs, Some(c.job.value.(status := Some(Status(Completed, now)))))
  {
    AllWorked(Delete, c.live, rs);
    var (found, running) := Existing(f, c, rs);
    ExistingExactly(f, c, rs);
    if running == Some(false) {
      ExecutedExactly(f, found, Delete, rs);
      var (done, ok) := Executed(f, found, Delete, rs);
      StoppedJoins(f, c, found, done, ok);
    }
  }

  lemma DeletedExactly(f: Faults, c: Cluster, rs: seq<Resource>, now: Time)
    requires c.job.Some? && c.job.value.finalizer && StateOf(c.job.value) == Deleting
    ensures Finishes(f, c, Reconciled(f, c, rs, now), rs,
                     if c.job.value.deleting then None else Some(c.job.value.(finalizer := false)))
  {
    AllWorked(Delete, c.live, rs);
    ExecutedExactly(f, c, Delete, rs);
  }

  lemma ReconcileExactly(f: Faults, c: Cluster, rs: seq<Resource>, now: Time)
    requires c.job.Some?
    ensures IsReconciled(f, c, Reconciled(f, c, rs, now), rs, now)
  {
    var job := c.job.value;
    if job.finalizer && !(job.deleting && StateOf(job) != Deleting) {
      match StateOf(job)
      case Pending => StartedExactly(f, c, rs, now);
      case Running => CompletedExactly(f, c, rs, now);
      case Deleting => DeletedExactly(f, c, rs, now);
      case _ =>
    }
  }

  /** A reconcile that writes `Running` leaves every resource live. */
  lemma RunningIsLive(f: Faults, c: Cluster, rs: seq<Resource>, now: Time)
    requires c.job.Some? && StateOf(c.job.value) != Running
    ensures var c' := Reconciled(f, c, rs, now);
            c'.job.Some? && StateOf(c'.job.value) == Running ==> forall r :: r in rs ==> r in c'.live
  {
    ReconcileExactly(f, c, rs, now);
  }
}
