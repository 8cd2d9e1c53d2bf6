/** The code of the kernel-call queue on its own objects, tied step by step to the interleaved model. */
module KCallCode {
  import opened Basics
  import opened KCallObject
  import opened KCallQueue

  /** struct ffkcall; `Image` says which model object it is the image of. */
  class Kcall {
    var op: nat
    var state: nat
    var w0: int
    var w1: int
    var w2: int

    ghost predicate Image(o: Obj)
      reads this
    {
      op == o.op && state == o.state && Words(w0, w1, w2) == o.mem
    }

    constructor ()
      ensures op == 0 && state == 0
    {
      op, state, w0, w1, w2 := 0, 0, 0, 0, 0;
    }

    /** The head of every `*_async` function: busy, a result, or the arguments stored for a new operation. */
    method Begin(newOp: nat, args: Words, ghost o: Obj) returns (a: Answer)
      requires Image(o)
      modifies this
      ensures Image(Async(o, newOp, args)) && a == AsyncAnswer(o)
    {
      if state != 0 {
        return Busy;
      }
      if op != 0 {
        op := 0;
        return Ready(Result(w1, w0));
      }
      w0, w1 := args.w0, args.w1;
      if newOp == FILE_READ || newOp == FILE_WRITE {
        w2 := args.w2;
      }
      op := newOp;
      return InProgress;
    }
  }

  ghost predicate Images(ks: seq<Kcall>, objs: seq<Obj>)
    reads ks
  {
    |ks| == |objs| && forall i :: 0 <= i < |ks| ==> ks[i].Image(objs[i])
  }

  /** A ring of objects and the ring of their numbers. */
  ghost predicate Ring(q: seq<Kcall>, ids: seq<nat>, ks: seq<Kcall>) {
    |q| == |ids| && forall k :: 0 <= k < |q| ==> ids[k] < |ks| && q[k] == ks[ids[k]]
  }

  ghost predicate Apart(ks: seq<Kcall>) {
    forall i, j :: 0 <= i < j < |ks| ==> ks[i] != ks[j]
  }

  /** All but the i-th are images; with the i-th also one, all are. */
  ghost predicate OthersImages(ks: seq<Kcall>, objs: seq<Obj>, i: nat)
    reads ks
  {
    |ks| == |objs| && forall j :: 0 <= j < |ks| && j != i ==> ks[j].Image(objs[j])
  }

  lemma AllImages(ks: seq<Kcall>, objs: seq<Obj>, i: nat, o: Obj)
    requires i < |objs| && OthersImages(ks, objs, i) && ks[i].Image(o)
    ensures Images(ks, objs[i := o])
  {
  }

  class Queue {
    const cfg: Config
    ghost const calls: seq<Kcall>
    var sq: seq<Kcall>
    var cq: seq<Kcall>
    var sem: nat
    var posted: bool
    /** The state of the interleaved model this is the image of. */
    ghost var s: State

    ghost predicate Valid()
      reads this, calls
    {
      && Apart(calls)
      && Images(calls, s.objs)
      && Ring(sq, s.sq, calls) && Ring(cq, s.cq, calls)
      && sem == s.sem && posted == s.posted
    }

    constructor (cfg: Config, ghost calls: seq<Kcall>, ghost workers: nat)
      requires Apart(calls)
      requires forall i :: 0 <= i < |calls| ==> calls[i].op == 0 && calls[i].state == 0
      ensures Valid() && this.cfg == cfg && this.calls == calls && Initial(s) && |s.workers| == workers
    {
      this.cfg, this.calls := cfg, calls;
      sq, cq, sem, posted := [], [], 0, false;
      s := State(seq(|calls|, i requires 0 <= i < |calls| reads calls => New(Words(calls[i].w0, calls[i].w1, calls[i].w2))),
                 [], [], 0, 0, false, seq(workers, _ => Asleep), Waiting, false);
    }

    // ----- submitting

    /** An `*_async` call up to the queue insertion. */
    method AsyncStart(kc: Kcall, op: nat, args: Words, ghost i: nat) returns (a: Answer)
      requires Valid() && i < |calls| && kc == calls[i] && Possible(cfg, s, AsyncCall(i, op, args))
      modifies kc, this`s
      ensures Valid() && s == Next(cfg, old(s), AsyncCall(i, op, args))
      ensures a == AsyncAnswer(old(s).objs[i])
    {
      ghost var o := s.objs[i];
      a := kc.Begin(op, args, o);
      AllImages(calls, s.objs, i, Async(o, op, args));
      s := Next(cfg, s, AsyncCall(i, op, args));
    }

    /** _ffkcall_add from the insertion on; false is the EAGAIN answer. */
    method Add(kc: Kcall, ghost i: nat) returns (added: bool)
      requires Valid() && i < |calls| && kc == calls[i] && Enabled(cfg, s, Enqueue(i))
      modifies kc, this`s, this`sq, this`sem
      ensures Valid() && added == (|old(s).sq| < cfg.sqCap)
      ensures if added then s == Next(cfg, Next(cfg, old(s), Enqueue(i)), SemPost) else s == Next(cfg, old(s), Enqueue(i))
    {
      added := Insert(kc, i);
      if added {
        Post();
      }
    }

    /** The insertion, or the operation code cleared if the queue is full. */
    method Insert(kc: Kcall, ghost i: nat) returns (added: bool)
      requires Valid() && i < |calls| && kc == calls[i] && Enabled(cfg, s, Enqueue(i))
      modifies kc, this`s, this`sq
      ensures Valid() && added == (|old(s).sq| < cfg.sqCap) && s == Next(cfg, old(s), Enqueue(i))
    {
      ghost var o := s.objs[i];
      added := |sq| < cfg.sqCap;
      if added {
        sq := sq + [kc];
        AllImages(calls, s.objs, i, Accept(o));
      } else {
        kc.op := 0;
        AllImages(calls, s.objs, i, Reject(o));
      }
      s := Next(cfg, s, Enqueue(i));
    }

    method Post()
      requires Valid() && Enabled(cfg, s, SemPost)
      modifies this`s, this`sem
      ensures Valid() && s == Next(cfg, old(s), SemPost)
    {
      if cfg.hasSem {
        sem := sem + 1;
      }
      s := Next(cfg, s, SemPost);
    }

    /** ffkcall_cancel */
    method CancelNow(kc: Kcall, ghost i: nat)
      requires Valid() && i < |calls| && kc == calls[i] && Enabled(cfg, s, CancelCall(i))
      modifies kc, this`s
      ensures Valid() && s == Next(cfg, old(s), CancelCall(i))
    {
      ghost var o := s.objs[i];
      kc.op := 0;
      AllImages(calls, s.objs, i, Cancel(o));
      s := Next(cfg, s, CancelCall(i));
    }

    // ----- a worker

    /** ffsem_wait by a worker, once the semaphore has a count. */
    method WaitSq(ghost w: nat)
      requires Valid() && Enabled(cfg, s, Wake(w))
      modifies this`s, this`sem
      ensures Valid() && s == Next(cfg, old(s), Wake(w))
      ensures cfg.hasSem ==> sem == old(sem) - 1
    {
      if cfg.hasSem {
        sem := sem - 1;
      }
      s := Next(cfg, s, Wake(w));
    }

    method FetchSq(ghost w: nat) returns (kc: Kcall?)
      requires Valid() && Enabled(cfg, s, Fetch(w))
      modifies this`s, this`sq
      ensures Valid() && s == Next(cfg, old(s), Fetch(w))
      ensures kc == null <==> old(s).sq == []
      ensures kc != null ==> old(s).sq[0] < |calls| && kc == calls[old(s).sq[0]]
    {
      if sq == [] {
        kc := null;
      } else {
        kc := sq[0];
        sq := sq[1..];
        ghost var i := s.sq[0];
        AllImages(calls, s.objs, i, TakenBy(s.objs[i], w));
      }
      s := Next(cfg, s, Fetch(w));
    }

    /** _ffkcall_exec, storing the result over the arguments, and the state set after it. */
    method Exec(kc: Kcall, res: Result, ghost i: nat, ghost w: nat) returns (ok: bool)
      requires Valid() && i < |calls| && kc == calls[i] && s.objs[i].hist != []
      modifies kc, this`s
      ensures Valid() && ok == KnownOp(old(s).objs[i].op)
      ensures s == SetObj(old(s), i, if ok then AfterExec(old(s).objs[i], w, res) else KCallObject.Exec(old(s).objs[i], w, res))
    {
      ghost var o := s.objs[i];
      ok := kc.op == FILE_OPEN || kc.op == FILE_INFO || kc.op == FILE_READ || kc.op == FILE_WRITE || kc.op == NET_RESOLVE;
      if ok {
        kc.w1 := res.value;
        kc.w0 := res.error;
        kc.state := 2;
      } else {
        kc.state := 0;
      }
      ghost var o' := if ok then AfterExec(o, w, res) else KCallObject.Exec(o, w, res);
      AllImages(calls, s.objs, i, o');
      s := SetObj(s, i, o');
    }

    /** Hand a finished call to the completion queue, and post an event if it was empty. */
    method CompleteOne(kc: Kcall, ghost i: nat, ghost w: nat)
      requires Valid() && i < |calls| && kc == calls[i] && w < |s.workers| && |s.cq| < cfg.cqCap
      modifies this`s, this`cq, this`posted
      ensures Valid() && s == Completed(cfg, old(s), i, w)
    {
      var used := |cq|;
      AllImages(calls, s.objs, i, Complete(s.objs[i]));
      cq := cq + [kc];
      if used == 0 && cfg.hasPost {
        posted := true;
      }
      s := Completed(cfg, s, i, w);
    }

    /** One round of ffkcallq_process_sq after the fetch. */
    method ServeOne(kc: Kcall, res: Result, ghost i: nat, ghost w: nat)
      requires Valid() && i < |calls| && kc == calls[i] && s.objs[i].hist != []
      requires w < |s.workers| && |s.cq| < cfg.cqCap
      modifies kc, this`s, this`cq, this`posted
      ensures Valid() && s == Served(cfg, old(s), i, w, res)
    {
      var ok := Exec(kc, res, i, w);
      if ok {
        CompleteOne(kc, i, w);
      } else {
        s := SetWorker(s, w, Polling);
      }
    }

    /** Fetch a submitted call, if any, and serve it. */
    method ServeNext(res: Result, ghost w: nat, ghost s0: State) returns (more: bool)
      requires Valid() && Safe(cfg, s) && Reaches(cfg, s0, s) && |calls| <= cfg.cqCap
      requires w < |s.workers| && s.workers[w].Polling?
      modifies this`s, this`sq, this`cq, this`posted, calls
      ensures Valid() && Safe(cfg, s) && Reaches(cfg, s0, s) && w < |s.workers|
      ensures more <==> old(s).sq != []
      ensures if more then RoundOf(cfg, old(s), s, res) else s == SetWorker(old(s), w, Asleep)
    {
      ghost var i := if s.sq == [] then 0 else s.sq[0];
      FetchReached(cfg, s0, s, w);
      var kc := FetchSq(w);
      more := kc != null;
      if more {
        ServedReached(cfg, s0, s, i, w, res);
        RoundServes(cfg, old(s), w, res);
        ServeOne(kc, res, i, w);
      }
    }

    /** ffkcallq_process_sq by worker `w`: a run of the model that serves every queued call, the k-th with the system's
        k-th answer, in order, and goes back to sleep. */
    method ProcessSq(answers: nat -> Result, ghost w: nat)
      requires Valid() && Safe(cfg, s) && |calls| <= cfg.cqCap
      requires w < |s.workers| && s.workers[w].Polling?
      modifies this`s, this`sq, this`cq, this`posted, calls
      ensures Valid() && Safe(cfg, s) && sq == [] && Reaches(cfg, old(s), s)
      ensures AfterRounds(cfg, old(s), s, |old(s).sq|, answers) && s.workers == old(s).workers[w := Asleep]
    {
      ghost var s0 := s;
      var n := 0;
      ReachesSelf(cfg, s);
      NoRoundsYet(cfg, s, answers);
      while true
        invariant Valid() && Safe(cfg, s) && Reaches(cfg, s0, s)
        invariant w < |s.workers| && s.workers[w].Polling?
        invariant AfterRounds(cfg, s0, s, n, answers) && s.workers == s0.workers
        decreases |s.sq|
      {
        ghost var s1 := s;
        var more := ServeNext(answers(n), w, s0);
        if !more {
          break;
        }
        OneMoreRound(cfg, s0, s1, s, n, answers);
        n := n + 1;
      }
    }

    // ----- the completion thread

    /** The completion thread consumes the posted event before it looks at the queue. */
    method WaitCq()
      requires Valid() && Enabled(cfg, s, ReaderWake)
      modifies this`s, this`posted
      ensures Valid() && s == Next(cfg, old(s), ReaderWake) && !posted && s.reader.Draining?
    {
      posted := false;
      s := Next(cfg, s, ReaderWake);
    }

    method FetchCq() returns (kc: Kcall?)
      requires Valid() && Enabled(cfg, s, ReaderFetch)
      modifies this`s, this`cq
      ensures Valid() && s == Next(cfg, old(s), ReaderFetch)
      ensures kc == null <==> old(s).cq == []
      ensures kc != null ==> old(s).cq[0] < |calls| && kc == calls[old(s).cq[0]]
    {
      if cq == [] {
        kc := null;
      } else {
        kc := cq[0];
        cq := cq[1..];
        ghost var i := s.cq[0];
        AllImages(calls, s.objs, i, TakenByReader(s.objs[i]));
      }
      s := Next(cfg, s, ReaderFetch);
    }

    /** One round of ffkcallq_process_cq after the fetch: true if the handler is called. */
    method FinishOne(kc: Kcall, ghost i: nat) returns (called: bool)
      requires Valid() && i < |calls| && kc == calls[i] && s.objs[i].hist != []
      modifies kc, this`s
      ensures Valid() && s == Finished(old(s), i) && called == (old(s).objs[i].op != 0)
    {
      ghost var o := s.objs[i];
      kc.state := 0;
      called := kc.op != 0;
      AllImages(calls, s.objs, i, Deliver(Clear(o)));
      s := Finished(s, i);
    }

    /** Fetch a completed call, if any, and finish it. */
    method ReadNext(ghost s0: State) returns (kc: Kcall?, called: bool)
      requires Valid() && Safe(cfg, s) && Reaches(cfg, s0, s) && s.reader.Draining?
      modifies this`s, this`cq, calls
      ensures Valid() && Safe(cfg, s) && Reaches(cfg, s0, s)
      ensures kc == null <==> old(s).cq == []
      ensures kc == null ==> s == old(s).(reader := Waiting)
      ensures kc != null ==> ReadOf(old(s), s) && old(s).cq[0] < |calls| && kc == calls[old(s).cq[0]]
      ensures kc != null ==> called == (old(s).objs[old(s).cq[0]].op != 0)
    {
      called := false;
      ghost var i := if s.cq == [] then 0 else s.cq[0];
      ReaderFetchReached(cfg, s0, s);
      kc := FetchCq();
      if kc != null {
        FinishedReached(cfg, s0, s, i);
        ReadFinishes(cfg, old(s));
        called := FinishOne(kc, i);
      }
    }

    /** The same as the round after `n` others, with the handlers called so far. */
    method ReadRound(ghost s0: State, ghost n: nat, handled: seq<Kcall>) returns (done: bool, all: seq<Kcall>)
      requires Valid() && Safe(cfg, s) && Reaches(cfg, s0, s) && s.reader.Draining? && Distinct(s0.cq)
      requires AfterReads(s0, s, n) && Ring(handled, LiveIds(s0.cq[..n], s0.objs), calls)
      modifies this`s, this`cq, calls
      ensures Valid() && Safe(cfg, s) && Reaches(cfg, s0, s)
      ensures done ==> n == |s0.cq| && s == old(s).(reader := Waiting) && all == handled
      ensures !done ==> s.reader.Draining? && |s.cq| < |old(s.cq)| && AfterReads(s0, s, n + 1)
      ensures !done ==> Ring(all, LiveIds(s0.cq[..n + 1], s0.objs), calls)
    {
      ghost var s1 := s;
      var kc, called := ReadNext(s0);
      done := kc == null;
      all := if called && kc != null then handled + [kc] else handled;
      ReadSoFar(s0, s1, s, n, handled, calls, done);
    }

    /** ffkcallq_process_cq: a run of the model that finishes every completed call and calls, in order, the handlers of
        those that had not been cancelled. */
    method ProcessCq() returns (handled: seq<Kcall>)
      requires Valid() && Safe(cfg, s) && s.reader.Draining?
      modifies this`s, this`cq, calls
      ensures Valid() && Safe(cfg, s) && cq == [] && Reaches(cfg, old(s), s)
      ensures AfterReads(old(s), s, |old(s).cq|) && s.reader.Waiting?
      ensures Ring(handled, LiveIds(old(s).cq, old(s).objs), calls)
    {
      ghost var s0 := s;
      ghost var n := 0;
      handled := [];
      ReachesSelf(cfg, s);
      NoReadsYet(s);
      while true
        invariant Valid() && Safe(cfg, s) && Reaches(cfg, s0, s) && s.reader.Draining?
        invariant AfterReads(s0, s, n) && Ring(handled, LiveIds(s0.cq[..n], s0.objs), calls)
        decreases |s.cq|
      {
        var done;
        done, handled := ReadRound(s0, n, handled);
        if done {
          break;
        }
        n := n + 1;
      }
      assert s0.cq[..n] == s0.cq;
    }
  }

  // ----- what whole drains do

  /** What serving a call does to its object. A cancelled one is dropped. Of any other the system was asked exactly what
      was submitted, and its answer lies over the arguments. */
  ghost predicate ServedAs(o: Obj, o': Obj, res: Result) {
    if o.op == 0 then o' == o.(place := Free, state := 0)
    else
      && o.hist != [] && |o'.hist| == |o.hist|
      && o'.hist[..|o.hist| - 1] == o.hist[..|o.hist| - 1]
      && Last(o') == Last(o).(run := Some((Last(o).op, o.mem, res)))
      && SameArgs(Last(o).op, Last(o).args, o.mem)
      && o'.op == o.op && o'.state == 2 && o'.place.InCq?
      && o'.mem.w1 == res.value && o'.mem.w0 == res.error && o'.mem.w2 == o.mem.w2
  }

  /** The numbers of the objects whose operation was not cancelled. */
  function LiveIds(ids: seq<nat>, objs: seq<Obj>): seq<nat> {
    if ids == [] then []
    else
      var last := ids[|ids| - 1];
      LiveIds(ids[..|ids| - 1], objs) + if last < |objs| && objs[last].op != 0 then [last] else []
  }

  /** Neither the semaphore nor anything of the other threads has changed. */
  ghost predicate OthersSame(s: State, t: State) {
    t.sem == s.sem && t.posting == s.posting && t.reader == s.reader && t.failed == s.failed
  }

  /** One round: the first queued call is served with this answer. */
  ghost predicate RoundOf(c: Config, s: State, t: State, res: Result) {
    && s.sq != [] && s.sq[0] < |s.objs| == |t.objs|
    && var i := s.sq[0];
       && ServedAs(s.objs[i], t.objs[i], res) && t.objs == s.objs[i := t.objs[i]]
       && t.sq == s.sq[1..] && t.cq == s.cq + (if s.objs[i].op != 0 then [i] else [])
       && t.posted == (s.posted || (c.hasPost && s.cq == [] && t.cq != []))
       && t.workers == s.workers && OthersSame(s, t)
  }

  lemma RoundServes(c: Config, s: State, w: nat, res: Result)
    requires Inv(s) && w < |s.workers| && s.workers[w].Polling? && s.sq != [] && Enabled(c, s, Fetch(w))
    requires Next(c, s, Fetch(w)).objs[s.sq[0]].hist != []
    ensures RoundOf(c, s, Served(c, Next(c, s, Fetch(w)), s.sq[0], w, res), res)
  {
    var i := s.sq[0];
    assert i in s.sq && s.objs[i].place.InSq? && ObjOk(s.objs[i]);
    var s1 := Next(c, s, Fetch(w));
    var t := Served(c, s1, i, w, res);
    assert t.workers == s.workers;
    assert t.objs == s.objs[i := t.objs[i]];
    ServedObject(s.objs[i], w, res);
  }

  lemma ServedObject(o: Obj, w: nat, res: Result)
    requires ObjOk(o) && o.place.InSq?
    ensures KnownOp(o.op) <==> o.op != 0
    ensures var o1 := TakenBy(o, w);
            ServedAs(o, if KnownOp(o.op) then Complete(AfterExec(o1, w, res)) else KCallObject.Exec(o1, w, res), res)
  {
  }

  /** After `n` rounds from `s0`: the first `n` queued calls have been served, the k-th with the k-th answer, those not
      cancelled are in the completion queue in the same order, and no other object has changed. */
  ghost predicate AfterRounds(c: Config, s0: State, s: State, n: nat, answers: nat -> Result) {
    && n <= |s0.sq| && s.sq == s0.sq[n..]
    && s.cq == s0.cq + LiveIds(s0.sq[..n], s0.objs)
    && |s.objs| == |s0.objs|
    && (forall k :: 0 <= k < n ==>
          s0.sq[k] < |s0.objs| && ServedAs(s0.objs[s0.sq[k]], s.objs[s0.sq[k]], answers(k)))
    && (forall i :: 0 <= i < |s0.objs| && i !in s0.sq[..n] ==> s.objs[i] == s0.objs[i])
    && s.posted == (s0.posted || (c.hasPost && s0.cq == [] && s.cq != []))
    && OthersSame(s0, s)
  }

  lemma NoRoundsYet(c: Config, s: State, answers: nat -> Result)
    ensures AfterRounds(c, s, s, 0, answers)
  {
    assert s.sq[0..] == s.sq && s.cq + [] == s.cq;
  }

  lemma LiveIdsSnoc(ids: seq<nat>, objs: seq<Obj>, n: nat)
    requires n < |ids|
    ensures LiveIds(ids[..n + 1], objs) ==
              LiveIds(ids[..n], objs) + if ids[n] < |objs| && objs[ids[n]].op != 0 then [ids[n]] else []
  {
    assert ids[..n + 1][..n] == ids[..n];
  }

  lemma OneMoreRound(c: Config, s0: State, s: State, t: State, n: nat, answers: nat -> Result)
    requires Distinct(s0.sq) && AfterRounds(c, s0, s, n, answers) && RoundOf(c, s, t, answers(n))
    ensures AfterRounds(c, s0, t, n + 1, answers)
  {
    var i := s0.sq[n];
    assert s.sq[0] == i && s.sq[1..] == s0.sq[n + 1..];
    assert i !in s0.sq[..n];
    assert s0.sq[..n + 1] == s0.sq[..n] + [i];
    LiveIdsSnoc(s0.sq, s0.objs, n);
    assert s.objs[i] == s0.objs[i];
    forall k | 0 <= k < n + 1 ensures s0.sq[k] < |s0.objs| && ServedAs(s0.objs[s0.sq[k]], t.objs[s0.sq[k]], answers(k)) {
      if k < n {
        assert t.objs[s0.sq[k]] == s.objs[s0.sq[k]];
      }
    }
  }

  lemma ReadSoFar(s0: State, s: State, t: State, n: nat, handled: seq<Kcall>, ks: seq<Kcall>, done: bool)
    requires Distinct(s0.cq) && AfterReads(s0, s, n) && Ring(handled, LiveIds(s0.cq[..n], s0.objs), ks)
    requires if done then s.cq == [] else ReadOf(s, t) && s.cq[0] < |ks|
    ensures done ==> n == |s0.cq|
    ensures !done ==> t.reader == s.reader && |t.cq| < |s.cq| && AfterReads(s0, t, n + 1)
    ensures !done ==> Ring(if s.objs[s.cq[0]].op != 0 then handled + [ks[s.cq[0]]] else handled,
                           LiveIds(s0.cq[..n + 1], s0.objs), ks)
  {
    if !done {
      OneMoreRead(s0, s, t, n);
    }
  }

  /** What finishing a call does to its object: it is free, and unless cancelled its handler has been called. */
  ghost predicate FinishedAs(o: Obj, o': Obj) {
    && o'.op == o.op && o'.mem == o.mem && o'.state == 0 && o'.place.Free?
    && o.hist != []
    && o'.hist == if o.op == 0 then o.hist else o.hist[|o.hist| - 1 := Last(o).(handled := 1)]
  }

  /** One round of the completion thread: the first completed call is finished. */
  ghost predicate ReadOf(s: State, t: State) {
    && s.cq != [] && s.cq[0] < |s.objs| == |t.objs|
    && FinishedAs(s.objs[s.cq[0]], t.objs[s.cq[0]]) && t.objs == s.objs[s.cq[0] := t.objs[s.cq[0]]]
    && t == s.(objs := t.objs, cq := s.cq[1..])
  }

  lemma ReadFinishes(c: Config, s: State)
    requires Inv(s) && s.reader.Draining? && s.cq != [] && Enabled(c, s, ReaderFetch)
    requires Next(c, s, ReaderFetch).objs[s.cq[0]].hist != []
    ensures ReadOf(s, Finished(Next(c, s, ReaderFetch), s.cq[0]))
  {
    var i := s.cq[0];
    assert i in s.cq && s.objs[i].place.InCq? && ObjOk(s.objs[i]);
    var t := Finished(Next(c, s, ReaderFetch), i);
    assert t.objs == s.objs[i := t.objs[i]];
  }

  /** After `n` rounds of the completion thread: the first `n` completed calls are finished, nothing else has changed. */
  ghost predicate AfterReads(s0: State, s: State, n: nat) {
    && n <= |s0.cq| && |s.objs| == |s0.objs|
    && (forall k :: 0 <= k < n ==> s0.cq[k] < |s0.objs| && FinishedAs(s0.objs[s0.cq[k]], s.objs[s0.cq[k]]))
    && (forall i :: 0 <= i < |s0.objs| && i !in s0.cq[..n] ==> s.objs[i] == s0.objs[i])
    && s == s0.(objs := s.objs, cq := s0.cq[n..], reader := s.reader)
  }

  lemma NoReadsYet(s: State)
    ensures AfterReads(s, s, 0)
  {
    assert s.cq[0..] == s.cq;
  }

  lemma OneMoreRead(s0: State, s: State, t: State, n: nat)
    requires Distinct(s0.cq) && AfterReads(s0, s, n) && ReadOf(s, t)
    ensures AfterReads(s0, t, n + 1)
    ensures LiveIds(s0.cq[..n + 1], s0.objs) ==
              LiveIds(s0.cq[..n], s0.objs) + if s.objs[s.cq[0]].op != 0 then [s.cq[0]] else []
  {
    var i := s0.cq[n];
    assert s.cq[0] == i && s.cq[1..] == s0.cq[n + 1..];
    assert i !in s0.cq[..n];
    assert s0.cq[..n + 1] == s0.cq[..n] + [i];
    LiveIdsSnoc(s0.cq, s0.objs, n);
    assert s.objs[i] == s0.objs[i];
    forall k | 0 <= k < n + 1 ensures s0.cq[k] < |s0.objs| && FinishedAs(s0.objs[s0.cq[k]], t.objs[s0.cq[k]]) {
      if k < n {
        assert t.objs[s0.cq[k]] == s.objs[s0.cq[k]];
      }
    }
  }

  /** The object after _ffkcall_exec and the state change. */
  function AfterExec(o: Obj, w: nat, res: Result): Obj
    requires o.hist != []
  {
    Mark(StoreError(StoreResult(KCallObject.Exec(o, w, res), w, res), w, res), w)
  }

  /** The model after the insertion into the completion queue and the post that follows it. */
  function Completed(c: Config, s: State, i: nat, w: nat): State
    requires i < |s.objs| && w < |s.workers|
  {
    SetWorker(SetObj(s, i, Complete(s.objs[i])), w, Polling)
      .(cq := s.cq + [i], posted := s.posted || (s.cq == [] && c.hasPost))
  }

  /** The model after one round of a worker that holds object `i`. */
  function Served(c: Config, s: State, i: nat, w: nat, res: Result): State
    requires i < |s.objs| && s.objs[i].hist != [] && w < |s.workers|
  {
    if KnownOp(s.objs[i].op) then Completed(c, SetObj(s, i, AfterExec(s.objs[i], w, res)), i, w)
    else SetWorker(SetObj(s, i, KCallObject.Exec(s.objs[i], w, res)), w, Polling)
  }

  /** The model after one round of the completion thread. */
  function Finished(s: State, i: nat): State
    requires i < |s.objs| && s.objs[i].hist != []
  {
    SetObj(s, i, Deliver(Clear(s.objs[i]))).(reader := Draining)
  }

  // ----- these are runs of the model

  ghost predicate Reaches(c: Config, s: State, t: State) {
    exists es: seq<Event> :: Allowed(c, s, es) && RunAll(c, s, es) == t
  }

  lemma {:induction false} RunSnoc(c: Config, s: State, es: seq<Event>, e: Event)
    requires Allowed(c, s, es) && Enabled(c, RunAll(c, s, es), e)
    ensures Allowed(c, s, es + [e]) && RunAll(c, s, es + [e]) == Next(c, RunAll(c, s, es), e)
    decreases |es|
  {
    if es == [] {
      assert [] + [e] == [e] && [e][1..] == [];
    } else {
      assert (es + [e])[1..] == es[1..] + [e];
      RunSnoc(c, Next(c, s, es[0]), es[1..], e);
    }
  }

  lemma ReachesSelf(c: Config, s: State)
    ensures Reaches(c, s, s)
  {
    assert Allowed(c, s, []) && RunAll(c, s, []) == s;
  }

  lemma ReachesStep(c: Config, s0: State, s: State, e: Event)
    requires Reaches(c, s0, s) && Safe(c, s) && Enabled(c, s, e)
    ensures Reaches(c, s0, Next(c, s, e)) && Safe(c, Next(c, s, e))
  {
    var es :| Allowed(c, s0, es) && RunAll(c, s0, es) == s;
    RunSnoc(c, s0, es, e);
    StepSafe(c, s, e);
  }

  lemma FetchReached(c: Config, s0: State, s: State, w: nat)
    requires Reaches(c, s0, s) && Safe(c, s) && w < |s.workers| && s.workers[w].Polling?
    ensures Enabled(c, s, Fetch(w))
    ensures var t := Next(c, s, Fetch(w));
            && Reaches(c, s0, t) && Safe(c, t)
            && (s.sq != [] ==>
                  && t.workers[w] == Holding(s.sq[0]) && t.objs[s.sq[0]].place == AtWorker(w, Fetched)
                  && t.objs[s.sq[0]].hist != [])
  {
    if s.sq != [] {
      assert s.sq[0] in s.sq;
    }
    ReachesStep(c, s0, s, Fetch(w));
  }

  lemma RunReached(c: Config, s0: State, s: State, i: nat, w: nat, res: Result)
    requires Reaches(c, s0, s) && Safe(c, s) && i < |s.objs| && w < |s.workers| && s.workers[w] == Holding(i)
    requires s.objs[i].place == AtWorker(w, Fetched) && s.objs[i].hist != [] && KnownOp(s.objs[i].op)
    ensures var t := SetObj(s, i, StoreResult(KCallObject.Exec(s.objs[i], w, res), w, res));
            Reaches(c, s0, t) && Safe(c, t)
  {
    var s1 := Next(c, s, Run(w, res));
    ReachesStep(c, s0, s, Run(w, res));
    ReachesStep(c, s0, s1, PutResult(w));
    assert Next(c, s1, PutResult(w)).objs == s.objs[i := StoreResult(KCallObject.Exec(s.objs[i], w, res), w, res)];
  }

  lemma MarkReached(c: Config, s0: State, s: State, i: nat, w: nat, res: Result)
    requires Reaches(c, s0, s) && Safe(c, s) && i < |s.objs| && w < |s.workers| && s.workers[w] == Holding(i)
    requires s.objs[i].place == AtWorker(w, Stored(res))
    ensures var t := SetObj(s, i, Mark(StoreError(s.objs[i], w, res), w));
            Reaches(c, s0, t) && Safe(c, t) && Enabled(c, t, AddToCq(w))
  {
    var s1 := Next(c, s, PutError(w));
    ReachesStep(c, s0, s, PutError(w));
    ReachesStep(c, s0, s1, SetState(w));
    assert Next(c, s1, SetState(w)).objs == s.objs[i := Mark(StoreError(s.objs[i], w, res), w)];
  }

  lemma ExecReached(c: Config, s0: State, s: State, i: nat, w: nat, res: Result)
    requires Reaches(c, s0, s) && Safe(c, s) && i < |s.objs| && w < |s.workers| && s.workers[w] == Holding(i)
    requires s.objs[i].place == AtWorker(w, Fetched) && s.objs[i].hist != [] && KnownOp(s.objs[i].op)
    ensures var t := SetObj(s, i, AfterExec(s.objs[i], w, res));
            Reaches(c, s0, t) && Safe(c, t) && Enabled(c, t, AddToCq(w)) && t.workers[w] == Holding(i)
  {
    var stored := SetObj(s, i, StoreResult(KCallObject.Exec(s.objs[i], w, res), w, res));
    RunReached(c, s0, s, i, w, res);
    MarkReached(c, s0, stored, i, w, res);
    assert stored.objs[i := AfterExec(s.objs[i], w, res)] == s.objs[i := AfterExec(s.objs[i], w, res)];
  }

  lemma CompletedReached(c: Config, s0: State, s: State, i: nat, w: nat)
    requires Reaches(c, s0, s) && Safe(c, s) && Enabled(c, s, AddToCq(w)) && s.workers[w] == Holding(i)
    requires |s.objs| <= c.cqCap
    ensures |s.cq| < c.cqCap && Reaches(c, s0, Completed(c, s, i, w)) && Safe(c, Completed(c, s, i, w))
  {
    CqNeverFull(c, s, w);
    ReachesStep(c, s0, s, AddToCq(w));
    var t := Next(c, s, AddToCq(w));
    if s.cq == [] && c.hasPost {
      ReachesStep(c, s0, t, PostEvent(w));
      assert Next(c, t, PostEvent(w)).workers == Completed(c, s, i, w).workers;
    }
  }

  /** A round of a worker is a run of the model, and finds room in the completion queue. */
  lemma ServedReached(c: Config, s0: State, s: State, i: nat, w: nat, res: Result)
    requires Reaches(c, s0, s) && Safe(c, s) && i < |s.objs| && w < |s.workers| && s.workers[w] == Holding(i)
    requires s.objs[i].place == AtWorker(w, Fetched) && s.objs[i].hist != [] && |s.objs| <= c.cqCap
    ensures |s.cq| < c.cqCap
    ensures Reaches(c, s0, Served(c, s, i, w, res)) && Safe(c, Served(c, s, i, w, res))
  {
    CqHasRoom(c, s, i);
    if KnownOp(s.objs[i].op) {
      ExecReached(c, s0, s, i, w, res);
      CompletedReached(c, s0, SetObj(s, i, AfterExec(s.objs[i], w, res)), i, w);
    } else {
      ReachesStep(c, s0, s, Run(w, res));
    }
  }

  lemma CqHasRoom(c: Config, s: State, i: nat)
    requires Inv(s) && i < |s.objs| <= c.cqCap && !s.objs[i].place.InCq?
    ensures |s.cq| < c.cqCap
  {
    var q := s.cq + [i];
    assert i !in s.cq;
    assert Distinct(q);
    Pigeonhole(q, |s.objs|);
  }

  lemma ReaderFetchReached(c: Config, s0: State, s: State)
    requires Reaches(c, s0, s) && Safe(c, s) && s.reader.Draining?
    ensures Enabled(c, s, ReaderFetch)
    ensures var t := Next(c, s, ReaderFetch);
            && Reaches(c, s0, t) && Safe(c, t)
            && (s.cq != [] ==>
                  t.reader == Reading(s.cq[0]) && t.objs[s.cq[0]].place == AtReader(false) && t.objs[s.cq[0]].hist != [])
  {
    if s.cq != [] {
      assert s.cq[0] in s.cq;
    }
    ReachesStep(c, s0, s, ReaderFetch);
  }

  lemma FinishedReached(c: Config, s0: State, s: State, i: nat)
    requires Reaches(c, s0, s) && Safe(c, s) && i < |s.objs| && s.reader == Reading(i)
    requires s.objs[i].place == AtReader(false) && s.objs[i].hist != []
    ensures Reaches(c, s0, Finished(s, i)) && Safe(c, Finished(s, i))
  {
    var s1 := Next(c, s, ClearState);
    ReachesStep(c, s0, s, ClearState);
    ReachesStep(c, s0, s1, CallHandler);
    assert Next(c, s1, CallHandler).objs == Finished(s, i).objs;
  }
}
