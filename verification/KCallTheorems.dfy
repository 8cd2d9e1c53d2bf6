/** What the kernel-call queue guarantees, over every interleaving. */
module KCallTheorems {
  import opened KCallObject
  import opened KCallQueue

  /** No object is twice in a queue, in both queues, in two hands, or in a queue and in a hand. */
  ghost predicate OnePlaceEach(s: State) {
    && (forall j, k :: 0 <= j < k < |s.sq| ==> s.sq[j] != s.sq[k])
    && (forall j, k :: 0 <= j < k < |s.cq| ==> s.cq[j] != s.cq[k])
    && (forall i :: i in s.sq ==> i !in s.cq)
    && (forall w :: 0 <= w < |s.workers| && s.workers[w].Holding? ==>
          s.workers[w].i !in s.sq && s.workers[w].i !in s.cq && s.reader != Reading(s.workers[w].i))
    && (forall v, w :: 0 <= v < w < |s.workers| && s.workers[v].Holding? && s.workers[w].Holding? ==>
          s.workers[v].i != s.workers[w].i)
    && (s.reader.Reading? ==> s.reader.i !in s.sq && s.reader.i !in s.cq)
  }

  lemma InvMeansOnePlace(s: State)
    requires Inv(s)
    ensures OnePlaceEach(s)
  {
    forall i | i in s.sq ensures i !in s.cq {
      assert s.objs[i].place.InSq?;
    }
    forall w | 0 <= w < |s.workers| && s.workers[w].Holding?
      ensures s.workers[w].i !in s.sq && s.workers[w].i !in s.cq && s.reader != Reading(s.workers[w].i)
    {
      assert s.objs[s.workers[w].i].place.AtWorker?;
    }
  }

  /** Over every run each object is in at most one place, and at most once there. */
  lemma {:induction false} AtMostOnePlace(c: Config, s: State, es: seq<Event>)
    requires Initial(s) && Allowed(c, s, es)
    ensures OnePlaceEach(RunAll(c, s, es))
  {
    InitialSafe(c, s);
    EveryRunIsSafe(c, s, es);
    InvMeansOnePlace(RunAll(c, s, es));
  }

  /** No submission is handled twice; a cancelled one is not handled; what a caller collects is the answer the
      system gave to exactly what the caller had submitted. */
  lemma {:induction false} HandledAtMostOnce(c: Config, s: State, es: seq<Event>, i: nat, j: nat)
    requires Safe(c, s) && Allowed(c, s, es)
    requires i < |RunAll(c, s, es).objs| && j < |RunAll(c, s, es).objs[i].hist|
    ensures var sub := RunAll(c, s, es).objs[i].hist[j];
            && sub.handled <= 1
            && (sub.cancelled ==> sub.handled == 0)
            && (sub.handled == 1 ==> sub.accepted)
            && (sub.collected.Some? ==>
                  && sub.run.Some?
                  && sub.run.value.0 == sub.op && SameArgs(sub.op, sub.args, sub.run.value.1)
                  && sub.collected.value == sub.run.value.2)
  {
    EveryRunIsSafe(c, s, es);
    var o := RunAll(c, s, es).objs[i];
    assert ObjOk(o) && SubOk(o.hist[j]);
  }

  /** Nothing is queued, held or being submitted. */
  ghost predicate Drained(s: State) {
    && s.sq == [] && s.cq == []
    && (forall w :: 0 <= w < |s.workers| ==> !s.workers[w].Holding?)
    && !s.reader.Reading?
    && (forall i :: 0 <= i < |s.objs| ==> !s.objs[i].place.Submitting?)
  }

  /** Once both queues are drained, every accepted submission was handled exactly once or had been cancelled. */
  lemma {:induction false} HandledExactlyOnceWhenDrained(c: Config, s: State, es: seq<Event>, i: nat, j: nat)
    requires Safe(c, s) && Allowed(c, s, es) && Drained(RunAll(c, s, es))
    requires i < |RunAll(c, s, es).objs| && j < |RunAll(c, s, es).objs[i].hist|
    ensures var sub := RunAll(c, s, es).objs[i].hist[j];
            sub.accepted ==> sub.handled == if sub.cancelled then 0 else 1
  {
    EveryRunIsSafe(c, s, es);
    var t := RunAll(c, s, es);
    var o := t.objs[i];
    assert ObjOk(o) && o.place.Free?;
    assert Settled(o.hist[j]);
  }

  /** In every reachable state someone will look at a non-empty queue, and the completion queue has not
      overflowed if it has room for all objects. */
  lemma {:induction false} NoLostWakeup(c: Config, s: State, es: seq<Event>)
    requires Initial(s) && Allowed(c, s, es)
    ensures var t := RunAll(c, s, es);
            && (c.hasPost && t.cq != [] ==> t.posted || !t.reader.Waiting? || SomeWorker(t, Notify))
            && (c.hasSem ==> |t.sq| <= t.sem + t.posting + PollingCount(t.workers))
            && (c.hasSem && t.sq != [] ==> t.sem > 0 || t.posting > 0 || SomeWorker(t, Polling))
            && (|s.objs| <= c.cqCap ==> !t.failed)
  {
    InitialSafe(c, s);
    EveryRunIsSafe(c, s, es);
    SqWakes(c, RunAll(c, s, es));
    SameObjects(c, s, es);
  }

  lemma {:induction false} SameObjects(c: Config, s: State, es: seq<Event>)
    requires Allowed(c, s, es)
    ensures |RunAll(c, s, es).objs| == |s.objs|
    decreases |es|
  {
    if es != [] {
      assert |Next(c, s, es[0]).objs| == |s.objs|;
      SameObjects(c, Next(c, s, es[0]), es[1..]);
    }
  }

  // ----- a cancelled submission stays cancelled

  predicate Writes(e: Event) {
    e.AsyncCall? || e.Enqueue? || e.CancelCall? || e.Run? || e.CallHandler?
  }

  lemma OtherStepsKeepHistory(c: Config, s: State, e: Event, i: nat)
    requires Enabled(c, s, e) && i < |s.objs| && !Writes(e)
    ensures i < |Next(c, s, e).objs| && Next(c, s, e).objs[i].hist == s.objs[i].hist
  {
  }

  lemma AsyncStepLater(c: Config, s: State, i: nat, k: nat, op: nat, args: Words)
    requires Enabled(c, s, AsyncCall(k, op, args)) && i < |s.objs|
    ensures Later(s.objs[i], Next(c, s, AsyncCall(k, op, args)).objs[i])
  {
    AsyncLater(s.objs[i], op, args);
    OwnedLater(s.objs[i], 0, Result(0, 0));
  }

  lemma WritesLater(c: Config, s: State, e: Event, i: nat)
    requires Enabled(c, s, e) && i < |s.objs| && Writes(e)
    ensures i < |Next(c, s, e).objs| && Later(s.objs[i], Next(c, s, e).objs[i])
  {
    if e.AsyncCall? {
      AsyncStepLater(c, s, i, e.i, e.op, e.args);
    } else if e.Run? {
      OwnedLater(s.objs[i], e.w, e.res);
    } else {
      OwnedLater(s.objs[i], 0, Result(0, 0));
    }
  }

  lemma StepLater(c: Config, s: State, e: Event, i: nat)
    requires Enabled(c, s, e) && i < |s.objs|
    ensures i < |Next(c, s, e).objs| && Later(s.objs[i], Next(c, s, e).objs[i])
  {
    if Writes(e) {
      WritesLater(c, s, e, i);
    } else {
      OtherStepsKeepHistory(c, s, e, i);
      OwnedLater(s.objs[i], 0, Result(0, 0));
    }
  }

  lemma {:induction false} RunLater(c: Config, s: State, es: seq<Event>, i: nat)
    requires Allowed(c, s, es) && i < |s.objs|
    ensures i < |RunAll(c, s, es).objs| && Later(s.objs[i], RunAll(c, s, es).objs[i])
    decreases |es|
  {
    if es != [] {
      StepLater(c, s, es[0], i);
      RunLater(c, Next(c, s, es[0]), es[1..], i);
      LaterTransitive(s.objs[i], Next(c, s, es[0]).objs[i], RunAll(c, s, es).objs[i]);
    }
  }

  /** Cancelling at any point before delivery means the handler of that submission never runs. */
  lemma CancelledNeverHandled(c: Config, s: State, es: seq<Event>, i: nat)
    requires Safe(c, s) && i < |s.objs| && !s.objs[i].place.Free?
    requires Allowed(c, Next(c, s, CancelCall(i)), es)
    ensures var j := |s.objs[i].hist| - 1;
            var t := RunAll(c, Next(c, s, CancelCall(i)), es);
            0 <= j && i < |t.objs| && j < |t.objs[i].hist| && t.objs[i].hist[j].handled == 0
  {
    var s' := Next(c, s, CancelCall(i));
    var j := |s.objs[i].hist| - 1;
    assert ObjOk(s.objs[i]);
    StepSafe(c, s, CancelCall(i));
    assert s'.objs[i].hist[j].cancelled;
    RunLater(c, s', es, i);
    HandledAtMostOnce(c, s', es, i, j);
  }
}
