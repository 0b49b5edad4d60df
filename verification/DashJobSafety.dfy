/** No job leaks: over all runs, whatever calls fail. */
module DashJobSafety {
  import opened Results
  import opened Calls
  import opened DashJob

  /** The live resources that must not outlive the job. */
  function Owned(c: Cluster): set<Resource> {
    set r | r in c.live && !r.claim
  }

  predicate Rendered(c: Cluster, rs: seq<Resource>) {
    forall r :: r in Owned(c) ==> r in rs
  }

  /** A live resource implies that the job object is there with its finalizer, and
      a completed job has none. */
  predicate NoLeak(c: Cluster) {
    Owned(c) != {} ==> c.job.Some? && c.job.value.finalizer && c.job.value.State() != Completed
  }

  /** The object keeps its place: it is marked only with a finalizer. */
  predicate Sound(c: Cluster, rs: seq<Resource>) {
    && Rendered(c, rs) && NoLeak(c)
    && (c.job.Some? && c.job.value.deleting ==> c.job.value.finalizer)
  }

  /** A loop only touches the resources of the job, and only grows or only shrinks. */
  lemma {:induction false} LoopedFrame(f: Faults, c: Cluster, op: Operation, rs: seq<Resource>)
    ensures var r := Looped(f, c, op, rs).0;
            && r.job == c.job
            && (op == Create ==> c.live <= r.live && forall x :: x in r.live ==> x in c.live || x in rs)
            && (op == Delete ==> r.live <= c.live && forall x :: x in c.live && x !in r.live ==> x in rs && !x.claim)
    decreases |rs|
  {
    if rs != [] {
      var got := Call(f, c, c);
      if got.1 {
        var tried := Tried(f, got.0, op, rs[0], rs[0] in c.live);
        if tried.1 {
          LoopedFrame(f, tried.0, op, rs[1..]);
        }
      }
    }
  }

  /** A deletion that reports success leaves nothing but claims. */
  lemma {:induction false} DeletionIsComplete(f: Faults, c: Cluster, rs: seq<Resource>)
    requires Looped(f, c, Delete, rs).1
    ensures forall r :: r in rs && !r.claim ==> r !in Looped(f, c, Delete, rs).0.live
    decreases |rs|
  {
    if rs != [] {
      var got := Call(f, c, c);
      var tried := Tried(f, got.0, Delete, rs[0], rs[0] in c.live);
      DeletionIsComplete(f, tried.0, rs[1..]);
      LoopedFrame(f, tried.0, Delete, rs[1..]);
      assert rs == [rs[0]] + rs[1..];
    }
  }

  /** A creation that reports success leaves every resource live. */
  lemma {:induction false} CreationIsComplete(f: Faults, c: Cluster, rs: seq<Resource>)
    requires Looped(f, c, Create, rs).1
    ensures forall r :: r in rs ==> r in Looped(f, c, Create, rs).0.live
    decreases |rs|
  {
    if rs != [] {
      var got := Call(f, c, c);
      var tried := Tried(f, got.0, Create, rs[0], rs[0] in c.live);
      CreationIsComplete(f, tried.0, rs[1..]);
      LoopedFrame(f, tried.0, Create, rs[1..]);
      assert rs == [rs[0]] + rs[1..];
    }
  }

  lemma ExecutedFrame(f: Faults, c: Cluster, op: Operation, rs: seq<Resource>)
    requires Rendered(c, rs)
    ensures var r := Executed(f, c, op, rs);
            && r.0.job == c.job && Rendered(r.0, rs)
            && (op == Delete ==> r.0.live <= c.live)
            && (op == Delete && r.1 ==> Owned(r.0) == {})
            && (op == Create && r.1 ==> forall x :: x in rs ==> x in r.0.live)
  {
    var loaded := Call(f, c, c);
    if loaded.1 {
      LoopedFrame(f, loaded.0, op, rs);
      if Looped(f, loaded.0, op, rs).1 {
        if op == Delete {
          DeletionIsComplete(f, loaded.0, rs);
        } else {
          CreationIsComplete(f, loaded.0, rs);
        }
      }
    }
  }

  /** After a failed creation the rollback removes everything, unless it fails too;
      in either case the job object is as it was. */
  lemma CreatedFrame(f: Faults, c: Cluster, rs: seq<Resource>)
    requires Rendered(c, rs)
    ensures var r := Created(f, c, rs);
            && r.0.job == c.job && Rendered(r.0, rs)
            && (r.1 ==> forall x :: x in rs ==> x in r.0.live)
            && (!r.1 && Executed(f, Executed(f, c, Create, rs).0, Delete, rs).1 ==> Owned(r.0) == {})
  {
    ExecutedFrame(f, c, Create, rs);
    ExecutedFrame(f, Executed(f, c, Create, rs).0, Delete, rs);
  }

  /** `exists_named` finds a job running exactly when all its resources are live. */
  lemma {:induction false} FoundIsExact(f: Faults, c: Cluster, rs: seq<Resource>)
    ensures var r := Found(f, c, rs);
            && r.0.job == c.job && r.0.live == c.live
            && (r.1.Some? ==> (r.1.value <==> forall x :: x in rs ==> x in c.live))
    decreases |rs|
  {
    if rs != [] {
      assert rs == [rs[0]] + rs[1..];
      FoundIsExact(f, Call(f, c, c).0, rs[1..]);
    }
  }

  lemma ReconcileKeepsSound(f: Faults, c: Cluster, rs: seq<Resource>, now: Time)
    requires c.job.Some? && Sound(c, rs)
    ensures Sound(Reconciled(f, c, rs, now), rs)
  {
    var job := c.job.value;
    if job.finalizer && !(job.deleting && (job.status.None? || job.State() != Deleting)) {
      if job.State() == Pending {
        CreatedFrame(f, c, rs);
      } else if job.State() == Running {
        FoundIsExact(f, Call(f, c, c).0, rs);
        ExecutedFrame(f, Existing(f, c, rs).0, Delete, rs);
      } else if job.State() == Deleting {
        ExecutedFrame(f, c, Delete, rs);
      }
    }
  }

  // ------------------------------------------------------------------- runs

  datatype Step =
    | Reconcile(now: Time)
    | UserCreates
    | UserDeletes
    | Vanish(resource: Resource)

  predicate Enabled(c: Cluster, step: Step) {
    match step
    case Reconcile(_) => c.job.Some?
    case UserCreates => c.job.None?
    case _ => true
  }

  function Stepped(f: Faults, c: Cluster, rs: seq<Resource>, step: Step): Cluster
    requires Enabled(c, step)
  {
    match step
    case Reconcile(now) => Reconciled(f, c, rs, now)
    case UserCreates => c.(job := Some(JobObject(false, false, None)))
    case UserDeletes => WithoutJob(c)
    case Vanish(r) => c.(live := c.live - {r})
  }

  predicate Runs(f: Faults, c: Cluster, rs: seq<Resource>, steps: seq<Step>)
    decreases |steps|
  {
    steps == [] || (Enabled(c, steps[0]) && Runs(f, Stepped(f, c, rs, steps[0]), rs, steps[1..]))
  }

  function After(f: Faults, c: Cluster, rs: seq<Resource>, steps: seq<Step>): Cluster
    requires Runs(f, c, rs, steps)
    decreases |steps|
  {
    if steps == [] then c else After(f, Stepped(f, c, rs, steps[0]), rs, steps[1..])
  }

  /** No job leaks in any run, whatever fails: started with no object and no
      resources, or from any sound state. */
  lemma {:induction false} NeverLeaks(f: Faults, c: Cluster, rs: seq<Resource>, steps: seq<Step>)
    requires Sound(c, rs) && Runs(f, c, rs, steps)
    ensures Sound(After(f, c, rs, steps), rs) && NoLeak(After(f, c, rs, steps))
    decreases |steps|
  {
    if steps != [] {
      if steps[0].Reconcile? {
        ReconcileKeepsSound(f, c, rs, steps[0].now);
      }
      NeverLeaks(f, Stepped(f, c, rs, steps[0]), rs, steps[1..]);
    }
  }

  lemma EmptyIsSound(rs: seq<Resource>)
    ensures Sound(Cluster(None, {}, 0), rs)
  {
  }

  // ---------------------------------------------------------------- progress

  lemma {:induction false} FineLoop(f: Faults, c: Cluster, op: Operation, rs: seq<Resource>)
    requires FineFrom(f, c.calls)
    ensures Looped(f, c, op, rs).1 && c.calls <= Looped(f, c, op, rs).0.calls
    decreases |rs|
  {
    if rs != [] {
      FineLoop(f, Tried(f, Call(f, c, c).0, op, rs[0], rs[0] in c.live).0, op, rs[1..]);
    }
  }

  /** Once calls stop failing, two reconciles remove a job that was marked for
      deletion, with everything it owns, whatever failed before. */
  lemma DeletedJobGoesAway(f: Faults, c: Cluster, rs: seq<Resource>, now: Time, later: Time)
    requires Sound(c, rs) && FineFrom(f, c.calls)
    requires c.job.Some? && c.job.value.deleting
    ensures var c' := Reconciled(f, c, rs, now);
            var c'' := if c'.job.None? then c' else Reconciled(f, c', rs, later);
            c''.job.None? && Owned(c'') == {}
  {
    var c' := Reconciled(f, c, rs, now);
    ReconcileKeepsSound(f, c, rs, now);
    if c.job.value.State() == Deleting {
      DeletingJobGoesAway(f, c, rs, now);
    } else {
      assert c' == WithStatus(c, Deleting, now).(calls := c.calls + 1);
      DeletingJobGoesAway(f, c', rs, later);
    }
  }

  lemma DeletingJobGoesAway(f: Faults, c: Cluster, rs: seq<Resource>, now: Time)
    requires Sound(c, rs) && FineFrom(f, c.calls)
    requires c.job.Some? && c.job.value.deleting && c.job.value.State() == Deleting
    ensures Reconciled(f, c, rs, now).job.None? && Owned(Reconciled(f, c, rs, now)) == {}
  {
    ExecutedFrame(f, c, Delete, rs);
    FineLoop(f, Call(f, c, c).0, Delete, rs);
  }

  /** A job's life while nothing fails: the finalizer comes first; a pending job gets
      all its resources and runs; a running job that lost one is completed and keeps
      only claims; twenty minutes later it is marked for deletion. */
  lemma FineLife(f: Faults, c: Cluster, rs: seq<Resource>, now: Time)
    requires Sound(c, rs) && FineFrom(f, c.calls)
    requires c.job.Some? && !c.job.value.deleting
    ensures var job := c.job.value;
            var c' := Reconciled(f, c, rs, now);
            && c'.job.Some?
            && (!job.finalizer ==> c'.job.value == job.(finalizer := true) && c'.live == c.live)
            && (job.finalizer ==>
                  match job.State()
                  case Pending => c'.job.value.State() == Running && forall r :: r in rs ==> r in c'.live
                  case Running =>
                    if forall r :: r in rs ==> r in c.live then c'.job == c.job && c'.live == c.live
                    else c'.job.value.State() == Completed && Owned(c') == {}
                  case Deleting => true
                  case _ =>
                    && c'.live == c.live && c'.job.value.State() == job.State()
                    && (c'.job.value.deleting <==> now - job.status.value.updated >= GC_TIMEOUT))
  {
    var job := c.job.value;
    if job.finalizer && job.State() == Pending {
      FineLoop(f, Call(f, c, c).0, Create, rs);
      CreatedFrame(f, c, rs);
    } else if job.finalizer && job.State() == Running {
      FineSearch(f, Call(f, c, c).0, rs);
      FoundIsExact(f, Call(f, c, c).0, rs);
      var found := Existing(f, c, rs).0;
      FineLoop(f, Call(f, found, found).0, Delete, rs);
      ExecutedFrame(f, found, Delete, rs);
    } else if job.finalizer && job.State() == Deleting {
      ExecutedFrame(f, c, Delete, rs);
    }
  }

  lemma {:induction false} FineSearch(f: Faults, c: Cluster, rs: seq<Resource>)
    requires FineFrom(f, c.calls)
    ensures Found(f, c, rs).1.Some? && c.calls <= Found(f, c, rs).0.calls
    decreases |rs|
  {
    if rs != [] {
      FineSearch(f, Call(f, c, c).0, rs[1..]);
    }
  }
}
