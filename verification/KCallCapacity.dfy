/** How large the completion queue must be: exactly one place for each call object. */
module KCallCapacity {
  import opened KCallObject
  import opened KCallQueue
  import opened KCallCode
  import opened KCallTheorems

  /** `k` calls wait in the completion queue, the objects from `k` on are unused, the first worker sleeps. */
  ghost predicate Stage(s: State, k: nat) {
    && s.sq == [] && |s.cq| == k && !s.failed
    && |s.workers| > 0 && s.workers[0].Asleep?
    && forall i :: k <= i < |s.objs| ==> s.objs[i].place.Free? && s.objs[i].op == 0 && s.objs[i].state == 0
  }

  /** Nothing but the `k`-th object has changed. */
  ghost predicate OnlyObject(s: State, t: State, k: nat) {
    |t.objs| == |s.objs| && forall i :: 0 <= i < |s.objs| && i != k ==> t.objs[i] == s.objs[i]
  }

  lemma Extend(c: Config, s0: State, s: State, e: Event)
    requires Reaches(c, s0, s) && Enabled(c, s, e)
    ensures Reaches(c, s0, Next(c, s, e))
  {
    var es :| Allowed(c, s0, es) && RunAll(c, s0, es) == s;
    RunSnoc(c, s0, es, e);
  }

  lemma SubmitNext(c: Config, s0: State, s: State, k: nat) returns (t: State)
    requires Reaches(c, s0, s) && Stage(s, k) && k < |s.objs| && c.sqCap > 0
    ensures Reaches(c, s0, t) && OnlyObject(s, t, k)
    ensures t.sq == [k] && t.cq == s.cq && t.workers == s.workers && !t.failed && (c.hasSem ==> t.sem > 0)
    ensures t.objs[k].place.InSq? && t.objs[k].op == FILE_OPEN && t.objs[k].hist != []
  {
    var e1 := AsyncCall(k, FILE_OPEN, Words(0, 0, 0));
    var s1 := Next(c, s, e1);
    Extend(c, s0, s, e1);
    var s2 := Next(c, s1, Enqueue(k));
    Extend(c, s0, s1, Enqueue(k));
    t := Next(c, s2, SemPost);
    Extend(c, s0, s2, SemPost);
  }

  lemma TakeNext(c: Config, s0: State, s: State, k: nat) returns (t: State)
    requires Reaches(c, s0, s) && s.sq == [k] && k < |s.objs| && !s.failed && (c.hasSem ==> s.sem > 0)
    requires |s.workers| > 0 && s.workers[0].Asleep?
    requires s.objs[k].place.InSq? && s.objs[k].op == FILE_OPEN && s.objs[k].hist != []
    ensures Reaches(c, s0, t) && OnlyObject(s, t, k)
    ensures t.sq == [] && t.cq == s.cq && t.workers == s.workers[0 := Holding(k)] && !t.failed
    ensures t.objs[k].place == AtWorker(0, Fetched) && t.objs[k].op == FILE_OPEN && t.objs[k].hist != []
  {
    var s1 := Next(c, s, Wake(0));
    Extend(c, s0, s, Wake(0));
    t := Next(c, s1, Fetch(0));
    Extend(c, s0, s1, Fetch(0));
    assert s.sq[1..] == [];
    assert s.workers[0 := Polling][0 := Holding(k)] == s.workers[0 := Holding(k)];
  }

  lemma RunNext(c: Config, s0: State, s: State, k: nat) returns (t: State)
    requires Reaches(c, s0, s) && k < |s.objs| && !s.failed && |s.workers| > 0 && s.workers[0] == Holding(k)
    requires s.objs[k].place == AtWorker(0, Fetched) && s.objs[k].op == FILE_OPEN && s.objs[k].hist != []
    ensures Reaches(c, s0, t) && OnlyObject(s, t, k)
    ensures t.sq == s.sq && t.cq == s.cq && t.workers == s.workers && !t.failed
    ensures t.objs[k].place == AtWorker(0, Marked)
  {
    var res := Result(0, 0);
    var s1 := Next(c, s, Run(0, res));
    Extend(c, s0, s, Run(0, res));
    var s2 := Next(c, s1, PutResult(0));
    Extend(c, s0, s1, PutResult(0));
    t := StoreNext(c, s0, s2, k, res);
  }

  lemma StoreNext(c: Config, s0: State, s: State, k: nat, res: Result) returns (t: State)
    requires Reaches(c, s0, s) && k < |s.objs| && |s.workers| > 0 && s.workers[0] == Holding(k)
    requires s.objs[k].place == AtWorker(0, Stored(res))
    ensures Reaches(c, s0, t) && OnlyObject(s, t, k)
    ensures t.sq == s.sq && t.cq == s.cq && t.workers == s.workers && t.failed == s.failed
    ensures t.objs[k].place == AtWorker(0, Marked)
  {
    var s1 := Next(c, s, PutError(0));
    Extend(c, s0, s, PutError(0));
    t := Next(c, s1, SetState(0));
    Extend(c, s0, s1, SetState(0));
  }

  /** With room in the completion queue the worker finishes and goes back to sleep; without, it fails. */
  lemma AddNext(c: Config, s0: State, s: State, k: nat) returns (t: State)
    requires Reaches(c, s0, s) && k < |s.objs| && s.sq == [] && !s.failed && |s.workers| > 0 && s.workers[0] == Holding(k)
    requires s.objs[k].place == AtWorker(0, Marked)
    ensures Reaches(c, s0, t) && OnlyObject(s, t, k)
    ensures if |s.cq| < c.cqCap then t.sq == [] && |t.cq| == |s.cq| + 1 && !t.failed && |t.workers| > 0 && t.workers[0].Asleep?
            else t.failed
  {
    t := Next(c, s, AddToCq(0));
    Extend(c, s0, s, AddToCq(0));
    if |s.cq| < c.cqCap {
      if t.workers[0].Notify? {
        Extend(c, s0, t, PostEvent(0));
        t := Next(c, t, PostEvent(0));
      }
      Extend(c, s0, t, Fetch(0));
      t := Next(c, t, Fetch(0));
    }
  }

  lemma NextStage(c: Config, s0: State, s: State, k: nat) returns (t: State)
    requires Reaches(c, s0, s) && Stage(s, k) && k < |s.objs| && c.sqCap > 0
    ensures Reaches(c, s0, t) && |t.objs| == |s.objs|
    ensures if k < c.cqCap then Stage(t, k + 1) else t.failed
  {
    var s1 := SubmitNext(c, s0, s, k);
    var s2 := TakeNext(c, s0, s1, k);
    var s3 := RunNext(c, s0, s2, k);
    t := AddNext(c, s0, s3, k);
  }

  lemma {:induction false} Overflows(c: Config, s0: State, s: State, k: nat) returns (t: State)
    requires Reaches(c, s0, s) && Stage(s, k) && k <= c.cqCap < |s.objs| && c.sqCap > 0
    ensures Reaches(c, s0, t) && t.failed
    decreases c.cqCap - k
  {
    t := NextStage(c, s0, s, k);
    if k < c.cqCap {
      t := Overflows(c, s0, t, k + 1);
    }
  }

  /** With a submission queue and a worker at all, some run makes the add to the completion queue fail if and
      only if there are more call objects than places in it. */
  lemma OverflowIff(c: Config, s: State)
    requires Initial(s) && c.sqCap > 0 && |s.workers| > 0
    ensures (exists t: State :: Reaches(c, s, t) && t.failed) <==> |s.objs| > c.cqCap
  {
    if |s.objs| > c.cqCap {
      ReachesSelf(c, s);
      var t := Overflows(c, s, s, 0);
      assert Reaches(c, s, t) && t.failed;
    } else {
      forall t: State | Reaches(c, s, t) ensures !t.failed {
        var es :| Allowed(c, s, es) && RunAll(c, s, es) == t;
        NoLostWakeup(c, s, es);
      }
    }
  }
}
