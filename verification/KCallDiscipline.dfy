/** Why callers of the kernel-call queue need a discipline: what goes wrong exactly when they break it. */
module KCallDiscipline {
  import opened Basics
  import opened KCallObject
  import opened KCallQueue
  import opened KCallTheorems

  // ----- runs of callers that may do anything

  ghost predicate PossibleAll(c: Config, s: State, es: seq<Event>)
    decreases |es|
  {
    es != [] ==> Possible(c, s, es[0]) && PossibleAll(c, Next(c, s, es[0]), es[1..])
  }

  ghost function RunFreely(c: Config, s: State, es: seq<Event>): State
    requires PossibleAll(c, s, es)
    decreases |es|
  {
    if es == [] then s else RunFreely(c, Next(c, s, es[0]), es[1..])
  }

  /** The invariant holds before, between and after the steps. */
  ghost predicate InvThroughout(c: Config, s: State, es: seq<Event>)
    requires PossibleAll(c, s, es)
    decreases |es|
  {
    Inv(s) && (es != [] ==> InvThroughout(c, Next(c, s, es[0]), es[1..]))
  }

  // ----- the discipline is exactly what keeps the invariant

  lemma InconsiderateBreaksObject(o: Obj, op: nat, args: Words)
    requires ObjOk(o) && KnownOp(op) && !o.place.Submitting? && !o.place.Free? && o.state != 2
    ensures var o' := Async(o, op, args);
            !ObjOk(o') || (o'.place.Submitting? && !o.place.Free?)
  {
    if AsyncAnswer(o).Ready? {
      assert Last(Async(o, op, args)).collected.Some?;
    }
  }

  /** An object that is queued or in hand cannot be submitting as well. */
  lemma CannotLeavePlace(s: State, i: nat, o: Obj)
    requires Inv(s) && i < |s.objs| && !s.objs[i].place.Free? && !s.objs[i].place.Submitting? && o.place.Submitting?
    ensures !Inv(SetObj(s, i, o))
  {
    var t := SetObj(s, i, o);
    assert t.objs[i] == o;
    match s.objs[i].place
    case InSq => assert i in t.sq;
    case InCq => assert i in t.cq;
    case AtWorker(w, _) => assert t.workers[w] == Holding(i);
    case AtReader(_) => assert t.reader == Reading(i);
  }

  /** An async call keeps every object in one place and its history straight if and only if it is made on an
      object that is free or marked complete. */
  lemma AsyncKeepsInvIff(c: Config, s: State, i: nat, op: nat, args: Words)
    requires Inv(s) && Possible(c, s, AsyncCall(i, op, args))
    ensures Inv(Next(c, s, AsyncCall(i, op, args))) <==> Considerate(s, AsyncCall(i, op, args))
  {
    var o, o' := s.objs[i], Async(s.objs[i], op, args);
    if Considerate(s, AsyncCall(i, op, args)) {
      StepKeepsInv(c, s, AsyncCall(i, op, args));
    } else {
      InconsiderateBreaksObject(o, op, args);
      if o'.place.Submitting? {
        CannotLeavePlace(s, i, o');
      } else {
        assert Next(c, s, AsyncCall(i, op, args)).objs[i] == o';
      }
    }
  }

  /** In a caller's own terms, unless it cancelled: if and only if its last submission is not under way, or the
      state field already says complete. */
  lemma AsyncKeepsInvForCaller(c: Config, s: State, i: nat, op: nat, args: Words)
    requires Inv(s) && Possible(c, s, AsyncCall(i, op, args)) && !LastCancelled(s.objs[i])
    ensures Inv(Next(c, s, AsyncCall(i, op, args))) <==> !UnderWay(s.objs[i]) || s.objs[i].state == 2
  {
    AsyncKeepsInvIff(c, s, i, op, args);
    FreeIffNotUnderWay(s.objs[i]);
  }

  /** Over whole runs: the invariant holds throughout if and only if every async call kept the discipline. */
  lemma {:induction false} InvThroughoutIff(c: Config, s: State, es: seq<Event>)
    requires Inv(s) && PossibleAll(c, s, es)
    ensures InvThroughout(c, s, es) <==> Allowed(c, s, es)
    decreases |es|
  {
    if es != [] {
      var e, s' := es[0], Next(c, s, es[0]);
      if e.AsyncCall? {
        AsyncKeepsInvIff(c, s, e.i, e.op, e.args);
      } else {
        StepKeepsInv(c, s, e);
      }
      if Inv(s') {
        InvThroughoutIff(c, s', es[1..]);
      }
    }
  }

  // ----- what breaking it costs

  ghost predicate FreelyReaches(c: Config, s: State, t: State) {
    exists es: seq<Event> :: PossibleAll(c, s, es) && RunFreely(c, s, es) == t
  }

  lemma {:induction false} FreeSnoc(c: Config, s: State, es: seq<Event>, e: Event)
    requires PossibleAll(c, s, es) && Possible(c, RunFreely(c, s, es), e)
    ensures PossibleAll(c, s, es + [e]) && RunFreely(c, s, es + [e]) == Next(c, RunFreely(c, s, es), e)
    decreases |es|
  {
    if es == [] {
      assert [] + [e] == [e] && [e][1..] == [];
    } else {
      assert (es + [e])[1..] == es[1..] + [e];
      FreeSnoc(c, Next(c, s, es[0]), es[1..], e);
    }
  }

  lemma FreeStep(c: Config, s0: State, s: State, e: Event)
    requires FreelyReaches(c, s0, s) && Possible(c, s, e)
    ensures FreelyReaches(c, s0, Next(c, s, e))
  {
    var es :| PossibleAll(c, s0, es) && RunFreely(c, s0, es) == s;
    FreeSnoc(c, s0, es, e);
  }

  /** Object 0 waits in the submission queue with this submission; nothing else has happened. */
  ghost predicate Waits(c: Config, s: State, sub: Sub) {
    && |s.objs| > 0 && |s.workers| > 0
    && s.objs[0].place.InSq? && s.objs[0].hist == [sub] && s.objs[0].state == 0
    && (forall i :: 1 <= i < |s.objs| ==> s.objs[i].place.Free?)
    && (forall w :: 0 <= w < |s.workers| ==> s.workers[w] == Asleep)
    && s.sq == [0] && s.cq == [] && (c.hasSem ==> s.sem > 0) && s.reader == Waiting
  }

  /** Submit one call. */
  lemma SubmitOne(c: Config, s: State, op: nat, args: Words) returns (t: State)
    requires Initial(s) && c.sqCap > 0 && |s.objs| > 0 && |s.workers| > 0 && KnownOp(op)
    ensures FreelyReaches(c, s, t) && Waits(c, t, Sub(op, args, true, None, false, 0, None))
    ensures t.objs[0].op == op && t.objs[0].mem.w0 == args.w0 && t.objs[0].mem.w1 == args.w1
  {
    assert PossibleAll(c, s, []) && RunFreely(c, s, []) == s;
    assert s.objs[0] == New(s.objs[0].mem);
    var s1 := Next(c, s, AsyncCall(0, op, args));
    FreeStep(c, s, s, AsyncCall(0, op, args));
    var s2 := Next(c, s1, Enqueue(0));
    FreeStep(c, s, s1, Enqueue(0));
    t := Next(c, s2, SemPost);
    FreeStep(c, s, s2, SemPost);
  }

  /** A worker wakes up and takes the waiting object. */
  lemma TakeWaiting(c: Config, s0: State, s: State, sub: Sub) returns (t: State)
    requires FreelyReaches(c, s0, s) && Waits(c, s, sub)
    ensures FreelyReaches(c, s0, t) && t.sq == [] && t.cq == [] && t.reader == Waiting
    ensures t.objs == s.objs[0 := TakenBy(s.objs[0], 0)] && t.workers == s.workers[0 := Holding(0)]
  {
    var s1 := Next(c, s, Wake(0));
    FreeStep(c, s0, s, Wake(0));
    t := Next(c, s1, Fetch(0));
    FreeStep(c, s0, s1, Fetch(0));
    assert s.sq[1..] == [];
    assert s.workers[0 := Polling][0 := Holding(0)] == s.workers[0 := Holding(0)];
  }

  /** With its operation code cleared, the waiting object is dropped by the worker without a trace. */
  lemma ServeCleared(c: Config, s0: State, s: State, sub: Sub) returns (t: State)
    requires FreelyReaches(c, s0, s) && Waits(c, s, sub) && s.objs[0].op == 0
    ensures FreelyReaches(c, s0, t) && Drained(t)
    ensures |t.objs| == |s.objs| && t.objs[0] == s.objs[0].(place := Free)
  {
    var s1 := TakeWaiting(c, s0, s, sub);
    var s2 := Next(c, s1, Run(0, Result(0, 0)));
    FreeStep(c, s0, s1, Run(0, Result(0, 0)));
    t := Next(c, s2, Fetch(0));
    FreeStep(c, s0, s2, Fetch(0));
  }

  /** A caller that asks for its result while the call still waits gets its own arguments back as a result, and the
      call is lost: both queues drain, the submission was accepted and never cancelled, the system was never
      asked, and the handler never ran. */
  lemma EarlyAsyncLosesCall(c: Config, s: State, op: nat, args: Words) returns (t: State)
    requires Initial(s) && c.sqCap > 0 && |s.objs| > 0 && |s.workers| > 0 && KnownOp(op)
    ensures FreelyReaches(c, s, t) && Drained(t) && |t.objs| > 0 && |t.objs[0].hist| == 1
    ensures var sub := t.objs[0].hist[0];
            && sub.op == op && sub.args == args && sub.accepted && !sub.cancelled
            && sub.run.None? && sub.handled == 0 && sub.collected == Some(Result(args.w1, args.w0))
  {
    var s1 := SubmitOne(c, s, op, args);
    var early := AsyncCall(0, op, args);
    var s2 := Next(c, s1, early);
    FreeStep(c, s, s1, early);
    t := ServeCleared(c, s, s2, Last(s2.objs[0]));
  }

  /** After a cancel a caller cannot tell: two reachable states differ in whether the object still waits in the
      queue, and in nothing else about it. */
  lemma CancelHidesWhere(c: Config, s: State, op: nat, args: Words) returns (waiting: State, drained: State)
    requires Initial(s) && c.sqCap > 0 && |s.objs| > 0 && |s.workers| > 0 && KnownOp(op)
    ensures FreelyReaches(c, s, waiting) && Waits(c, waiting, Sub(op, args, true, None, true, 0, None))
    ensures FreelyReaches(c, s, drained) && Drained(drained) && |drained.objs| > 0
    ensures waiting.objs[0].op == 0 && waiting.objs[0].place.InSq? && drained.objs[0] == waiting.objs[0].(place := Free)
  {
    var s1 := SubmitOne(c, s, op, args);
    waiting := Next(c, s1, CancelCall(0));
    FreeStep(c, s, s1, CancelCall(0));
    drained := ServeCleared(c, s, waiting, Last(waiting.objs[0]));
  }

  /** Submitting a cancelled object again before it is drained puts it in the queue twice. */
  lemma EarlyResubmitQueuesTwice(c: Config, s: State, op: nat, args: Words) returns (t: State)
    requires Initial(s) && c.sqCap > 1 && |s.objs| > 0 && |s.workers| > 0 && KnownOp(op)
    ensures FreelyReaches(c, s, t) && t.sq == [0, 0] && !OnePlaceEach(t)
  {
    var s1, _ := CancelHidesWhere(c, s, op, args);
    var again := AsyncCall(0, op, args);
    var s2 := Next(c, s1, again);
    FreeStep(c, s, s1, again);
    t := Next(c, s2, Enqueue(0));
    FreeStep(c, s, s2, Enqueue(0));
    assert t.sq[0] == t.sq[1];
  }
}
