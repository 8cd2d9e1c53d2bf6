/** Why every submitted call is answered: the threads always have a next step until both queues are drained, and every
    step brings that nearer. */
module KCallProgress {
  import opened KCallObject
  import opened KCallQueue
  import opened KCallTheorems

  /** A step of the threads on calls already made: anything but a new call or a cancel. */
  predicate Internal(e: Event) {
    !e.AsyncCall? && !e.CancelCall?
  }

  // ----- there is a next step

  lemma HolderCanGoOn(c: Config, s: State, w: nat) returns (e: Event)
    requires Inv(s) && w < |s.workers| && s.workers[w].Holding?
    ensures Internal(e) && Possible(c, s, e)
  {
    assert ObjOk(s.objs[s.workers[w].i]);
    e := match Held(s, w).place.at
      case Fetched => Run(w, Result(0, 0))
      case Called(_) => PutResult(w)
      case Stored(_) => PutError(w)
      case Done => SetState(w)
      case Marked => AddToCq(w);
  }

  lemma WorkerCanGoOn(c: Config, s: State, w: nat) returns (e: Event)
    requires Inv(s) && w < |s.workers| && !s.workers[w].Asleep?
    ensures Internal(e) && Possible(c, s, e)
  {
    if s.workers[w].Holding? {
      e := HolderCanGoOn(c, s, w);
    } else {
      assert s.sq != [] ==> s.sq[0] in s.sq;
      e := if s.workers[w].Polling? then Fetch(w) else PostEvent(w);
    }
  }

  lemma ReaderCanGoOn(c: Config, s: State) returns (e: Event)
    requires Inv(s) && !s.reader.Waiting?
    ensures Internal(e) && Possible(c, s, e)
  {
    if s.reader.Draining? {
      assert s.cq != [] ==> s.cq[0] in s.cq;
      e := ReaderFetch;
    } else {
      assert ObjOk(s.objs[s.reader.i]);
      e := if s.objs[s.reader.i].place.cleared then CallHandler else ClearState;
    }
  }

  lemma SleepersCanWake(c: Config, s: State) returns (e: Event)
    requires Safe(c, s) && |s.workers| > 0 && s.posting == 0 && s.reader.Waiting? && (s.sq != [] || s.cq != [])
    requires forall w :: 0 <= w < |s.workers| ==> s.workers[w].Asleep?
    ensures Internal(e) && Possible(c, s, e)
  {
    SqWakes(c, s);
    e := if s.sq != [] then Wake(0) else ReaderWake;
  }

  /** Until everything is drained, some thread has a next step. */
  lemma NeverStuck(c: Config, s: State) returns (e: Event)
    requires Safe(c, s) && |s.workers| > 0 && !Drained(s)
    ensures Internal(e) && Possible(c, s, e)
  {
    if w :| 0 <= w < |s.workers| && !s.workers[w].Asleep? {
      e := WorkerCanGoOn(c, s, w);
    } else if !s.reader.Waiting? {
      e := ReaderCanGoOn(c, s);
    } else if i :| 0 <= i < |s.objs| && s.objs[i].place.Submitting? {
      assert ObjOk(s.objs[i]);
      e := Enqueue(i);
    } else if s.posting > 0 {
      e := SemPost;
    } else {
      e := SleepersCanWake(c, s);
    }
  }

  // ----- and not for ever

  /** How many steps an object can still cause. */
  function ObjWork(o: Obj): nat {
    match o.place
    case Free => 0
    case Submitting => 16
    case InSq => 12
    case AtWorker(_, at) =>
      (match at
       case Fetched => 12
       case Called(_) => 11
       case Stored(_) => 10
       case Done => 9
       case Marked => 8)
    case InCq => 3
    case AtReader(cleared) => if cleared then 1 else 2
  }

  function WorkerWork(p: Worker): nat {
    match p
    case Asleep => 0
    case Polling => 1
    case Holding(_) => 0
    case Notify => 4
  }

  function ObjsWork(objs: seq<Obj>): nat {
    if objs == [] then 0 else ObjsWork(objs[..|objs| - 1]) + ObjWork(objs[|objs| - 1])
  }

  function WorkersWork(ws: seq<Worker>): nat {
    if ws == [] then 0 else WorkersWork(ws[..|ws| - 1]) + WorkerWork(ws[|ws| - 1])
  }

  /** An upper bound on the steps left. */
  function Work(s: State): nat {
    ObjsWork(s.objs) + WorkersWork(s.workers) + 3 * s.posting + 2 * s.sem +
    (if s.posted then 2 else 0) + (if s.reader.Waiting? then 0 else 1)
  }

  lemma {:induction false} ObjsWorkUpdate(objs: seq<Obj>, i: nat, o: Obj)
    requires i < |objs|
    ensures ObjsWork(objs[i := o]) + ObjWork(objs[i]) == ObjsWork(objs) + ObjWork(o)
  {
    var n := |objs| - 1;
    if i < n {
      ObjsWorkUpdate(objs[..n], i, o);
      assert objs[i := o][..n] == objs[..n][i := o];
    } else {
      assert objs[i := o][..n] == objs[..n];
    }
  }

  lemma {:induction false} WorkersWorkUpdate(ws: seq<Worker>, w: nat, p: Worker)
    requires w < |ws|
    ensures WorkersWork(ws[w := p]) + WorkerWork(ws[w]) == WorkersWork(ws) + WorkerWork(p)
  {
    var n := |ws| - 1;
    if w < n {
      WorkersWorkUpdate(ws[..n], w, p);
      assert ws[w := p][..n] == ws[..n][w := p];
    } else {
      assert ws[w := p][..n] == ws[..n];
    }
  }

  /** Steps of callers and of the semaphore. */
  lemma CallerStepWorks(c: Config, s: State, e: Event)
    requires Inv(s) && c.hasSem && Possible(c, s, e) && (e.Enqueue? || e.SemPost? || e.Wake?)
    ensures Work(Next(c, s, e)) < Work(s)
  {
    var t := Next(c, s, e);
    if e.Enqueue? {
      ObjsWorkUpdate(s.objs, e.i, t.objs[e.i]);
    } else if e.Wake? {
      WorkersWorkUpdate(s.workers, e.w, Polling);
    }
  }

  /** Steps of a worker on the object it holds. */
  lemma RunWorks(c: Config, s: State, w: nat, res: Result)
    requires Possible(c, s, Run(w, res))
    ensures Work(Next(c, s, Run(w, res))) < Work(s)
  {
    var i := s.workers[w].i;
    ObjsWorkUpdate(s.objs, i, Exec(s.objs[i], w, res));
    WorkersWorkUpdate(s.workers, w, Polling);
  }

  lemma StoreWorks(c: Config, s: State, e: Event)
    requires Possible(c, s, e) && (e.PutResult? || e.PutError? || e.SetState?)
    ensures Work(Next(c, s, e)) < Work(s)
  {
    var o, i := Held(s, e.w), s.workers[e.w].i;
    if e.PutResult? {
      ObjsWorkUpdate(s.objs, i, StoreResult(o, e.w, o.place.at.res));
    } else if e.PutError? {
      ObjsWorkUpdate(s.objs, i, StoreError(o, e.w, o.place.at.res));
    } else {
      ObjsWorkUpdate(s.objs, i, Mark(o, e.w));
    }
  }

  lemma FetchWorks(c: Config, s: State, w: nat)
    requires Inv(s) && Possible(c, s, Fetch(w))
    ensures Work(Next(c, s, Fetch(w))) < Work(s)
  {
    var t := Next(c, s, Fetch(w));
    WorkersWorkUpdate(s.workers, w, t.workers[w]);
    if s.sq != [] {
      var i := s.sq[0];
      assert i in s.sq;
      ObjsWorkUpdate(s.objs, i, t.objs[i]);
    }
  }

  lemma CompleteWorks(c: Config, s: State, e: Event)
    requires Inv(s) && |s.objs| <= c.cqCap && Possible(c, s, e) && (e.AddToCq? || e.PostEvent?)
    ensures Work(Next(c, s, e)) < Work(s)
  {
    var t := Next(c, s, e);
    WorkersWorkUpdate(s.workers, e.w, t.workers[e.w]);
    if e.AddToCq? {
      var i := s.workers[e.w].i;
      CqNeverFull(c, s, e.w);
      ObjsWorkUpdate(s.objs, i, t.objs[i]);
    }
  }

  lemma ReaderFetchWorks(c: Config, s: State)
    requires Inv(s) && Possible(c, s, ReaderFetch)
    ensures Work(Next(c, s, ReaderFetch)) < Work(s)
  {
    if s.cq != [] {
      var i := s.cq[0];
      assert i in s.cq;
      ObjsWorkUpdate(s.objs, i, TakenByReader(s.objs[i]));
    }
  }

  lemma FinishWorks(c: Config, s: State, e: Event)
    requires Possible(c, s, e) && (e.ClearState? || e.CallHandler?)
    ensures Work(Next(c, s, e)) < Work(s)
  {
    var i := s.reader.i;
    if e.ClearState? {
      ObjsWorkUpdate(s.objs, i, Clear(s.objs[i]));
    } else {
      ObjsWorkUpdate(s.objs, i, Deliver(s.objs[i]));
    }
  }

  lemma StepWorks(c: Config, s: State, e: Event)
    requires Inv(s) && c.hasSem && c.hasPost && |s.objs| <= c.cqCap && Possible(c, s, e) && Internal(e)
    ensures Work(Next(c, s, e)) < Work(s)
  {
    match e
    case Enqueue(_) => CallerStepWorks(c, s, e);
    case SemPost => CallerStepWorks(c, s, e);
    case Wake(_) => CallerStepWorks(c, s, e);
    case Fetch(w) => FetchWorks(c, s, w);
    case Run(w, res) => RunWorks(c, s, w, res);
    case PutResult(_) => StoreWorks(c, s, e);
    case PutError(_) => StoreWorks(c, s, e);
    case SetState(_) => StoreWorks(c, s, e);
    case AddToCq(_) => CompleteWorks(c, s, e);
    case PostEvent(_) => CompleteWorks(c, s, e);
    case ReaderWake =>
    case ReaderFetch => ReaderFetchWorks(c, s);
    case ClearState => FinishWorks(c, s, e);
    case CallHandler => FinishWorks(c, s, e);
  }

  /** With a semaphore and an event, and room for all objects, the threads take at most so many steps without a new
      call, whatever the order. */
  lemma {:induction false} BoundedWork(c: Config, s: State, es: seq<Event>)
    requires Safe(c, s) && c.hasSem && c.hasPost && |s.objs| <= c.cqCap && Allowed(c, s, es)
    requires forall i :: 0 <= i < |es| ==> Internal(es[i])
    ensures |es| + Work(RunAll(c, s, es)) <= Work(s)
    decreases |es|
  {
    if es != [] {
      StepWorks(c, s, es[0]);
      StepSafe(c, s, es[0]);
      BoundedWork(c, Next(c, s, es[0]), es[1..]);
    }
  }

  /** So every submission is answered: however the threads interleave, they come to a state in which none can go on, and
      there each accepted submission has been handled exactly once or had been cancelled. */
  lemma EveryCallIsAnswered(c: Config, s: State, es: seq<Event>, i: nat, j: nat)
    requires Safe(c, s) && c.hasSem && c.hasPost && |s.objs| <= c.cqCap && |s.workers| > 0 && Allowed(c, s, es)
    requires forall k :: 0 <= k < |es| ==> Internal(es[k])
    requires i < |RunAll(c, s, es).objs| && j < |RunAll(c, s, es).objs[i].hist|
    ensures |es| <= Work(s)
    ensures var t := RunAll(c, s, es);
            (forall e: Event :: Internal(e) ==> !Possible(c, t, e)) ==>
              && Drained(t)
              && (t.objs[i].hist[j].accepted ==> t.objs[i].hist[j].handled == if t.objs[i].hist[j].cancelled then 0 else 1)
  {
    var t := RunAll(c, s, es);
    BoundedWork(c, s, es);
    EveryRunIsSafe(c, s, es);
    SameWorkers(c, s, es);
    if !Drained(t) {
      var e := NeverStuck(c, t);
    } else {
      HandledExactlyOnceWhenDrained(c, s, es, i, j);
    }
  }

  lemma {:induction false} SameWorkers(c: Config, s: State, es: seq<Event>)
    requires Allowed(c, s, es)
    ensures |RunAll(c, s, es).workers| == |s.workers|
    decreases |es|
  {
    if es != [] {
      assert |Next(c, s, es[0]).workers| == |s.workers|;
      SameWorkers(c, Next(c, s, es[0]), es[1..]);
    }
  }
}
