/** The kernel-call queue: callers, worker threads and a completion thread, one atomic step at a time. */
module KCallQueue {
  import opened KCallObject

  datatype Worker = Asleep | Polling | Holding(i: nat) | Notify

  datatype Reader = Waiting | Draining | Reading(i: nat)

  /** Queue capacities; whether there is a semaphore for workers and an event for the completion thread. */
  datatype Config = Config(sqCap: nat, cqCap: nat, hasSem: bool, hasPost: bool)

  /** `posting` counts callers between their insertion and their semaphore post; `failed` is the assert(0). */
  datatype State = State(objs: seq<Obj>, sq: seq<nat>, cq: seq<nat>, sem: nat, posting: nat, posted: bool,
                         workers: seq<Worker>, reader: Reader, failed: bool)

  datatype Event =
    | AsyncCall(i: nat, op: nat, args: Words)
    | Enqueue(i: nat)
    | SemPost
    | CancelCall(i: nat)
    | Wake(w: nat)
    | Fetch(w: nat)
    | Run(w: nat, res: Result)
    | PutResult(w: nat)
    | PutError(w: nat)
    | SetState(w: nat)
    | AddToCq(w: nat)
    | PostEvent(w: nat)
    | ReaderWake
    | ReaderFetch
    | ClearState
    | CallHandler

  predicate Holds(s: State, w: nat) {
    w < |s.workers| && s.workers[w].Holding? && s.workers[w].i < |s.objs| && s.objs[s.workers[w].i].place.AtWorker?
  }

  function Held(s: State, w: nat): Obj
    requires Holds(s, w)
  {
    s.objs[s.workers[w].i]
  }

  /** What the threads are able to do. A caller inside its own `*_async` call makes no other on that object. */
  predicate Possible(c: Config, s: State, e: Event) {
    match e
    case AsyncCall(i, op, _) => i < |s.objs| && KnownOp(op) && !s.objs[i].place.Submitting?
    case Enqueue(i) => i < |s.objs| && s.objs[i].place.Submitting? && s.objs[i].hist != []
    case SemPost => s.posting > 0
    case CancelCall(i) => i < |s.objs|
    case Wake(w) => w < |s.workers| && s.workers[w].Asleep? && (c.hasSem ==> s.sem > 0)
    case Fetch(w) => w < |s.workers| && s.workers[w].Polling? && (s.sq != [] ==> s.sq[0] < |s.objs|)
    case Run(w, _) => Holds(s, w) && Held(s, w).place.at.Fetched? && Held(s, w).hist != []
    case PutResult(w) => Holds(s, w) && Held(s, w).place.at.Called?
    case PutError(w) => Holds(s, w) && Held(s, w).place.at.Stored?
    case SetState(w) => Holds(s, w) && Held(s, w).place.at.Done?
    case AddToCq(w) => Holds(s, w) && Held(s, w).place.at.Marked?
    case PostEvent(w) => w < |s.workers| && s.workers[w].Notify?
    case ReaderWake => s.reader.Waiting? && (c.hasPost ==> s.posted)
    case ReaderFetch => s.reader.Draining? && (s.cq != [] ==> s.cq[0] < |s.objs|)
    case ClearState => s.reader.Reading? && s.reader.i < |s.objs| && s.objs[s.reader.i].place == AtReader(false)
    case CallHandler => s.reader.Reading? && s.reader.i < |s.objs| && s.objs[s.reader.i].place == AtReader(true)
                        && s.objs[s.reader.i].hist != []
  }

  /** The discipline of callers: an `*_async` call is made on an object that is free or marked complete. */
  predicate Considerate(s: State, e: Event) {
    e.AsyncCall? && e.i < |s.objs| ==> s.objs[e.i].place.Free? || s.objs[e.i].state == 2
  }

  predicate Enabled(c: Config, s: State, e: Event) {
    Possible(c, s, e) && Considerate(s, e)
  }

  function SetObj(s: State, i: nat, o: Obj): State
    requires i < |s.objs|
  {
    s.(objs := s.objs[i := o])
  }

  function SetWorker(s: State, w: nat, p: Worker): State
    requires w < |s.workers|
  {
    s.(workers := s.workers[w := p])
  }

  function Next(c: Config, s: State, e: Event): State
    requires Possible(c, s, e)
  {
    match e
    case AsyncCall(i, op, args) => SetObj(s, i, Async(s.objs[i], op, args))
    case Enqueue(i) =>
      if |s.sq| < c.sqCap then SetObj(s, i, Accept(s.objs[i])).(sq := s.sq + [i], posting := s.posting + 1)
      else SetObj(s, i, Reject(s.objs[i]))
    case SemPost => s.(posting := s.posting - 1, sem := if c.hasSem then s.sem + 1 else s.sem)
    case CancelCall(i) => SetObj(s, i, Cancel(s.objs[i]))
    case Wake(w) => SetWorker(s, w, Polling).(sem := if c.hasSem then s.sem - 1 else s.sem)
    case Fetch(w) =>
      if s.sq == [] then SetWorker(s, w, Asleep)
      else SetWorker(SetObj(s, s.sq[0], TakenBy(s.objs[s.sq[0]], w)), w, Holding(s.sq[0])).(sq := s.sq[1..])
    case Run(w, res) =>
      var i := s.workers[w].i;
      var s' := SetObj(s, i, Exec(s.objs[i], w, res));
      if KnownOp(s.objs[i].op) then s' else SetWorker(s', w, Polling)
    case PutResult(w) => SetObj(s, s.workers[w].i, StoreResult(Held(s, w), w, Held(s, w).place.at.res))
    case PutError(w) => SetObj(s, s.workers[w].i, StoreError(Held(s, w), w, Held(s, w).place.at.res))
    case SetState(w) => SetObj(s, s.workers[w].i, Mark(Held(s, w), w))
    case AddToCq(w) =>
      var i := s.workers[w].i;
      if |s.cq| >= c.cqCap then s.(failed := true)
      else SetWorker(SetObj(s, i, Complete(s.objs[i])), w, if |s.cq| == 0 && c.hasPost then Notify else Polling)
           .(cq := s.cq + [i])
    case PostEvent(w) => SetWorker(s, w, Polling).(posted := true)
    case ReaderWake => s.(posted := false, reader := Draining)
    case ReaderFetch =>
      if s.cq == [] then s.(reader := Waiting)
      else SetObj(s, s.cq[0], TakenByReader(s.objs[s.cq[0]])).(cq := s.cq[1..], reader := Reading(s.cq[0]))
    case ClearState => SetObj(s, s.reader.i, Clear(s.objs[s.reader.i]))
    case CallHandler => SetObj(s, s.reader.i, Deliver(s.objs[s.reader.i])).(reader := Draining)
  }

  ghost predicate Initial(s: State) {
    && (forall i :: 0 <= i < |s.objs| ==> s.objs[i] == New(s.objs[i].mem))
    && (forall w :: 0 <= w < |s.workers| ==> s.workers[w] == Asleep)
    && s.sq == [] && s.cq == [] && s.sem == 0 && s.posting == 0 && !s.posted && s.reader == Waiting && !s.failed
  }

  ghost predicate Allowed(c: Config, s: State, es: seq<Event>)
    decreases |es|
  {
    es != [] ==> Enabled(c, s, es[0]) && Allowed(c, Next(c, s, es[0]), es[1..])
  }

  ghost function RunAll(c: Config, s: State, es: seq<Event>): State
    requires Allowed(c, s, es)
    decreases |es|
  {
    if es == [] then s else RunAll(c, Next(c, s, es[0]), es[1..])
  }

  // ----- each object in one place

  ghost predicate Distinct(q: seq<nat>) {
    forall i, j :: 0 <= i < j < |q| ==> q[i] != q[j]
  }

  /** The queue holds, once each, the objects whose place is that queue. */
  ghost predicate QueueOk(q: seq<nat>, objs: seq<Obj>, submission: bool) {
    && Distinct(q)
    && (forall k :: 0 <= k < |q| ==> q[k] < |objs|)
    && (forall i :: 0 <= i < |objs| ==>
          (i in q <==> if submission then objs[i].place.InSq? else objs[i].place.InCq?))
  }

  /** A worker or the reader has in hand exactly the object whose place is with it. */
  ghost predicate HandsOk(objs: seq<Obj>, workers: seq<Worker>, reader: Reader) {
    && (forall w :: 0 <= w < |workers| && workers[w].Holding? ==>
          workers[w].i < |objs| && objs[workers[w].i].place.AtWorker? && objs[workers[w].i].place.w == w)
    && (forall i :: 0 <= i < |objs| && objs[i].place.AtWorker? ==>
          objs[i].place.w < |workers| && workers[objs[i].place.w] == Holding(i))
    && (reader.Reading? ==> reader.i < |objs| && objs[reader.i].place.AtReader?)
    && (forall i :: 0 <= i < |objs| && objs[i].place.AtReader? ==> reader == Reading(i))
  }

  ghost predicate ObjsOk(objs: seq<Obj>) {
    forall i :: 0 <= i < |objs| ==> ObjOk(objs[i])
  }

  ghost predicate Inv(s: State) {
    && ObjsOk(s.objs)
    && QueueOk(s.sq, s.objs, true)
    && QueueOk(s.cq, s.objs, false)
    && HandsOk(s.objs, s.workers, s.reader)
  }

  lemma InitialInv(s: State)
    requires Initial(s)
    ensures Inv(s)
  {
  }

  /** Changing one object without moving it keeps everything. */
  lemma SameKindOfPlace(s: State, i: nat, o: Obj)
    requires Inv(s) && i < |s.objs| && ObjOk(o)
    requires match s.objs[i].place
             case Free => o.place.Free? || o.place.Submitting?
             case Submitting => o.place.Free? || o.place.Submitting?
             case InSq => o.place.InSq?
             case InCq => o.place.InCq?
             case AtWorker(w, _) => o.place.AtWorker? && o.place.w == w
             case AtReader(_) => o.place.AtReader?
    ensures Inv(SetObj(s, i, o))
  {
  }

  lemma TailOk(q: seq<nat>, objs: seq<Obj>, submission: bool, o: Obj)
    requires QueueOk(q, objs, submission) && q != []
    requires if submission then !o.place.InSq? else !o.place.InCq?
    ensures q[0] < |objs| && QueueOk(q[1..], objs[q[0] := o], submission)
  {
    var objs', q' := objs[q[0] := o], q[1..];
    assert q == [q[0]] + q';
    assert q[0] !in q';
  }

  lemma OtherQueueOk(q: seq<nat>, objs: seq<Obj>, submission: bool, i: nat, o: Obj)
    requires QueueOk(q, objs, submission) && i < |objs|
    requires if submission then !o.place.InSq? && !objs[i].place.InSq? else !o.place.InCq? && !objs[i].place.InCq?
    ensures QueueOk(q, objs[i := o], submission)
  {
  }

  lemma AppendOk(q: seq<nat>, objs: seq<Obj>, submission: bool, i: nat, o: Obj)
    requires QueueOk(q, objs, submission) && i < |objs|
    requires if submission then o.place.InSq? && !objs[i].place.InSq? else o.place.InCq? && !objs[i].place.InCq?
    ensures QueueOk(q + [i], objs[i := o], submission)
  {
    assert i !in q;
  }

  lemma UpdateOk(objs: seq<Obj>, i: nat, o: Obj)
    requires ObjsOk(objs) && i < |objs| && ObjOk(o)
    ensures ObjsOk(objs[i := o])
  {
  }

  /** A worker lets go of its object. */
  lemma ReleaseOk(objs: seq<Obj>, workers: seq<Worker>, reader: Reader, i: nat, o: Obj, w: nat, p: Worker)
    requires HandsOk(objs, workers, reader) && i < |objs| && w < |workers| && workers[w] == Holding(i)
    requires !p.Holding? && !o.place.AtWorker? && !o.place.AtReader?
    ensures HandsOk(objs[i := o], workers[w := p], reader)
  {
  }

  /** The reader lets go of its object. */
  lemma GiveBackOk(objs: seq<Obj>, workers: seq<Worker>, i: nat, o: Obj)
    requires HandsOk(objs, workers, Reading(i)) && !o.place.AtWorker? && !o.place.AtReader?
    ensures i < |objs| && HandsOk(objs[i := o], workers, Draining)
  {
  }

  /** A worker takes an object nobody holds. */
  lemma TakeOk(objs: seq<Obj>, workers: seq<Worker>, reader: Reader, i: nat, o: Obj, w: nat)
    requires HandsOk(objs, workers, reader) && i < |objs| && w < |workers| && !workers[w].Holding?
    requires !objs[i].place.AtWorker? && !objs[i].place.AtReader? && o.place.AtWorker? && o.place.w == w
    ensures HandsOk(objs[i := o], workers[w := Holding(i)], reader)
  {
  }

  // one lemma per step that moves an object

  lemma AsyncKeepsInv(c: Config, s: State, i: nat, op: nat, args: Words)
    requires Inv(s) && Enabled(c, s, AsyncCall(i, op, args))
    ensures Inv(Next(c, s, AsyncCall(i, op, args)))
  {
    AsyncOk(s.objs[i], op, args);
    SameKindOfPlace(s, i, Async(s.objs[i], op, args));
  }

  lemma EnqueueKeepsInv(c: Config, s: State, i: nat)
    requires Inv(s) && Enabled(c, s, Enqueue(i))
    ensures Inv(Next(c, s, Enqueue(i)))
  {
    QueueStepsOk(s.objs[i]);
    if |s.sq| < c.sqCap {
      UpdateOk(s.objs, i, Accept(s.objs[i]));
      AppendOk(s.sq, s.objs, true, i, Accept(s.objs[i]));
      OtherQueueOk(s.cq, s.objs, false, i, Accept(s.objs[i]));
    } else {
      SameKindOfPlace(s, i, Reject(s.objs[i]));
    }
  }

  lemma CancelKeepsInv(c: Config, s: State, i: nat)
    requires Inv(s) && Enabled(c, s, CancelCall(i))
    ensures Inv(Next(c, s, CancelCall(i)))
  {
    CancelOk(s.objs[i]);
    SameKindOfPlace(s, i, Cancel(s.objs[i]));
  }

  lemma RunKeepsInv(c: Config, s: State, w: nat, res: Result)
    requires Inv(s) && Enabled(c, s, Run(w, res))
    ensures Inv(Next(c, s, Run(w, res)))
  {
    var i := s.workers[w].i;
    var o := Exec(s.objs[i], w, res);
    WorkerStepsOk(s.objs[i], w, res);
    if KnownOp(s.objs[i].op) {
      SameKindOfPlace(s, i, o);
    } else {
      UpdateOk(s.objs, i, o);
      ReleaseOk(s.objs, s.workers, s.reader, i, o, w, Polling);
      OtherQueueOk(s.sq, s.objs, true, i, o);
      OtherQueueOk(s.cq, s.objs, false, i, o);
    }
  }

  lemma StoreKeepsInv(c: Config, s: State, e: Event)
    requires Inv(s) && Enabled(c, s, e) && (e.PutResult? || e.PutError? || e.SetState?)
    ensures Inv(Next(c, s, e))
  {
    var i := s.workers[e.w].i;
    WorkerStepsOk(s.objs[i], e.w, Result(0, 0));
    SameKindOfPlace(s, i, Next(c, s, e).objs[i]);
  }

  lemma FetchKeepsInv(c: Config, s: State, w: nat)
    requires Inv(s) && Enabled(c, s, Fetch(w))
    ensures Inv(Next(c, s, Fetch(w)))
  {
    if s.sq != [] {
      var i := s.sq[0];
      var o := TakenBy(s.objs[i], w);
      assert i in s.sq;
      QueueStepsOk(s.objs[i]);
      UpdateOk(s.objs, i, o);
      TakeOk(s.objs, s.workers, s.reader, i, o, w);
      TailOk(s.sq, s.objs, true, o);
      OtherQueueOk(s.cq, s.objs, false, i, o);
    }
  }

  lemma AddToCqKeepsInv(c: Config, s: State, w: nat)
    requires Inv(s) && Enabled(c, s, AddToCq(w))
    ensures Inv(Next(c, s, AddToCq(w)))
  {
    var i := s.workers[w].i;
    WorkerStepsOk(s.objs[i], w, Result(0, 0));
    if |s.cq| < c.cqCap {
      var o, p := Complete(s.objs[i]), if |s.cq| == 0 && c.hasPost then Notify else Polling;
      UpdateOk(s.objs, i, o);
      ReleaseOk(s.objs, s.workers, s.reader, i, o, w, p);
      AppendOk(s.cq, s.objs, false, i, o);
      OtherQueueOk(s.sq, s.objs, true, i, o);
    }
  }

  lemma ReaderFetchKeepsInv(c: Config, s: State)
    requires Inv(s) && Enabled(c, s, ReaderFetch)
    ensures Inv(Next(c, s, ReaderFetch))
  {
    if s.cq != [] {
      var i := s.cq[0];
      var o := TakenByReader(s.objs[i]);
      assert i in s.cq;
      QueueStepsOk(s.objs[i]);
      TailOk(s.cq, s.objs, false, o);
      OtherQueueOk(s.sq, s.objs, true, i, o);
    }
  }

  lemma ClearKeepsInv(c: Config, s: State)
    requires Inv(s) && Enabled(c, s, ClearState)
    ensures Inv(Next(c, s, ClearState))
  {
    ReaderStepsOk(s.objs[s.reader.i]);
    SameKindOfPlace(s, s.reader.i, Clear(s.objs[s.reader.i]));
  }

  lemma HandlerKeepsInv(c: Config, s: State)
    requires Inv(s) && Enabled(c, s, CallHandler)
    ensures Inv(Next(c, s, CallHandler))
  {
    var o := Deliver(s.objs[s.reader.i]);
    ReaderStepsOk(s.objs[s.reader.i]);
    UpdateOk(s.objs, s.reader.i, o);
    GiveBackOk(s.objs, s.workers, s.reader.i, o);
    OtherQueueOk(s.sq, s.objs, true, s.reader.i, o);
    OtherQueueOk(s.cq, s.objs, false, s.reader.i, o);
  }

  /** Every step of every thread keeps each object in one place, and its history straight. */
  lemma StepKeepsInv(c: Config, s: State, e: Event)
    requires Inv(s) && Enabled(c, s, e)
    ensures Inv(Next(c, s, e))
  {
    match e
    case AsyncCall(i, op, args) => AsyncKeepsInv(c, s, i, op, args);
    case Enqueue(i) => EnqueueKeepsInv(c, s, i);
    case SemPost =>
    case CancelCall(i) => CancelKeepsInv(c, s, i);
    case Wake(_) =>
    case Fetch(w) => FetchKeepsInv(c, s, w);
    case Run(w, res) => RunKeepsInv(c, s, w, res);
    case PutResult(_) => StoreKeepsInv(c, s, e);
    case PutError(_) => StoreKeepsInv(c, s, e);
    case SetState(_) => StoreKeepsInv(c, s, e);
    case AddToCq(w) => AddToCqKeepsInv(c, s, w);
    case PostEvent(_) =>
    case ReaderWake =>
    case ReaderFetch => ReaderFetchKeepsInv(c, s);
    case ClearState => ClearKeepsInv(c, s);
    case CallHandler => HandlerKeepsInv(c, s);
  }

  // ----- wake-ups

  ghost predicate SomeWorker(s: State, p: Worker) {
    exists w :: 0 <= w < |s.workers| && s.workers[w] == p
  }

  function PollingCount(ws: seq<Worker>): nat {
    if ws == [] then 0 else PollingCount(ws[..|ws| - 1]) + Polls(ws[|ws| - 1])
  }

  function Polls(p: Worker): nat {
    if p.Polling? then 1 else 0
  }

  /** A non-empty completion queue has an event pending, a reader at work, or a worker about to post. */
  ghost predicate CqWakes(c: Config, s: State) {
    c.hasPost && s.cq != [] ==> s.posted || !s.reader.Waiting? || SomeWorker(s, Notify)
  }

  /** For every queued call there is a semaphore count, a caller about to post, or a worker about to look: none has
      to wait until a worker comes back from a system call. */
  ghost predicate SqServed(c: Config, s: State) {
    c.hasSem ==> |s.sq| <= s.sem + s.posting + PollingCount(s.workers)
  }

  lemma {:induction false} PollingUpdate(ws: seq<Worker>, w: nat, p: Worker)
    requires w < |ws|
    ensures PollingCount(ws[w := p]) + Polls(ws[w]) == PollingCount(ws) + Polls(p)
  {
    var n := |ws| - 1;
    if w < n {
      PollingUpdate(ws[..n], w, p);
      assert ws[w := p][..n] == ws[..n][w := p];
    } else {
      assert ws[w := p][..n] == ws[..n];
    }
  }

  lemma {:induction false} SomePolling(ws: seq<Worker>) returns (w: nat)
    requires PollingCount(ws) > 0
    ensures w < |ws| && ws[w].Polling?
  {
    w := |ws| - 1;
    if !ws[w].Polling? {
      w := SomePolling(ws[..w]);
    }
  }

  /** So a non-empty submission queue has a semaphore count, a caller about to post, or a worker about to look. */
  lemma SqWakes(c: Config, s: State)
    requires SqServed(c, s)
    ensures c.hasSem && s.sq != [] ==> s.sem > 0 || s.posting > 0 || SomeWorker(s, Polling)
  {
    if c.hasSem && s.sq != [] && s.sem == 0 && s.posting == 0 {
      var w := SomePolling(s.workers);
      assert s.workers[w] == Polling;
    }
  }

  lemma StepKeepsCqWakes(c: Config, s: State, e: Event)
    requires CqWakes(c, s) && Possible(c, s, e)
    ensures CqWakes(c, Next(c, s, e))
  {
    var s' := Next(c, s, e);
    if c.hasPost && s.cq != [] && SomeWorker(s, Notify) {
      var w :| 0 <= w < |s.workers| && s.workers[w] == Notify;
      assert s'.workers[w] == Notify || s'.posted;
    }
    if e.AddToCq? && s.cq == [] && |s.cq| < c.cqCap && c.hasPost {
      assert s'.workers[e.w] == Notify;
    }
  }

  lemma StepKeepsSqServed(c: Config, s: State, e: Event)
    requires SqServed(c, s) && Possible(c, s, e)
    ensures SqServed(c, Next(c, s, e))
  {
    var s' := Next(c, s, e);
    if e.Wake? || e.Fetch? || e.Run? || e.AddToCq? || e.PostEvent? {
      PollingUpdate(s.workers, e.w, s'.workers[e.w]);
      assert s'.workers == s.workers[e.w := s'.workers[e.w]];
    }
  }

  // ----- the completion queue is large enough

  lemma {:induction false} Pigeonhole(q: seq<nat>, n: nat)
    requires Distinct(q) && forall k :: 0 <= k < |q| ==> q[k] < n
    ensures |q| <= n
    decreases n
  {
    if q != [] {
      assert q[0] < n;
      var last := n - 1;
      if last in q {
        var k :| 0 <= k < |q| && q[k] == last;
        Pigeonhole(q[..k] + q[k + 1..], last);
      } else {
        Pigeonhole(q, last);
      }
    }
  }

  /** With no more objects than places in the completion queue, adding to it cannot fail. */
  lemma CqNeverFull(c: Config, s: State, w: nat)
    requires Inv(s) && |s.objs| <= c.cqCap && Possible(c, s, AddToCq(w))
    ensures |s.cq| < c.cqCap
  {
    var i := s.workers[w].i;
    assert i !in s.cq;
    var q := s.cq + [i];
    assert Distinct(q);
    Pigeonhole(q, |s.objs|);
  }

  // ----- whole runs

  /** What holds in every state reachable by any interleaving. */
  ghost predicate Safe(c: Config, s: State) {
    Inv(s) && CqWakes(c, s) && SqServed(c, s) && (|s.objs| <= c.cqCap ==> !s.failed)
  }

  lemma InitialSafe(c: Config, s: State)
    requires Initial(s)
    ensures Safe(c, s)
  {
    InitialInv(s);
  }

  lemma StepNeverFails(c: Config, s: State, e: Event)
    requires Inv(s) && Possible(c, s, e)
    ensures |Next(c, s, e).objs| == |s.objs|
    ensures |s.objs| <= c.cqCap && !s.failed ==> !Next(c, s, e).failed
  {
    if |s.objs| <= c.cqCap && e.AddToCq? {
      CqNeverFull(c, s, e.w);
    }
  }

  lemma StepSafe(c: Config, s: State, e: Event)
    requires Safe(c, s) && Enabled(c, s, e)
    ensures Safe(c, Next(c, s, e)) && |Next(c, s, e).objs| == |s.objs|
  {
    StepKeepsInv(c, s, e);
    StepKeepsCqWakes(c, s, e);
    StepKeepsSqServed(c, s, e);
    StepNeverFails(c, s, e);
  }

  lemma {:induction false} EveryRunIsSafe(c: Config, s: State, es: seq<Event>)
    requires Safe(c, s) && Allowed(c, s, es)
    ensures Safe(c, RunAll(c, s, es))
    decreases |es|
  {
    if es != [] {
      StepSafe(c, s, es[0]);
      EveryRunIsSafe(c, Next(c, s, es[0]), es[1..]);
    }
  }
}
