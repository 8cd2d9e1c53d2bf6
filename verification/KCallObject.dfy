/** One kernel-call object: its overlaid fields, where it is, and the history of its submissions. */
module KCallObject {
  import opened Basics

  /** The union of struct ffkcall by position: error/flags/fd, then result/name/finfo/buf, then size. */
  datatype Words = Words(w0: int, w1: int, w2: int)

  datatype Result = Result(value: int, error: int)

  /** How far the worker holding the object has got. */
  datatype Progress = Fetched | Called(res: Result) | Stored(res: Result) | Done | Marked

  datatype Place = Free | Submitting | InSq | AtWorker(w: nat, at: Progress) | InCq | AtReader(cleared: bool)

  /** One submission: what was asked, what the system was asked and answered, and what came of it. */
  datatype Sub = Sub(op: nat, args: Words, accepted: bool, run: Option<(nat, Words, Result)>,
                     cancelled: bool, handled: nat, collected: Option<Result>)

  datatype Obj = Obj(op: nat, state: nat, mem: Words, place: Place, hist: seq<Sub>)

  const FILE_OPEN: nat := 1
  const FILE_INFO: nat := 2
  const FILE_READ: nat := 3
  const FILE_WRITE: nat := 4
  const NET_RESOLVE: nat := 5

  predicate KnownOp(op: nat) {
    FILE_OPEN <= op <= NET_RESOLVE
  }

  /** Only read and write have a third argument. */
  function StoreArgs(op: nat, a: Words, mem: Words): Words {
    if op == FILE_READ || op == FILE_WRITE then a else Words(a.w0, a.w1, mem.w2)
  }

  predicate SameArgs(op: nat, a: Words, b: Words) {
    a.w0 == b.w0 && a.w1 == b.w1 && (op == FILE_READ || op == FILE_WRITE ==> a.w2 == b.w2)
  }

  function New(mem: Words): Obj {
    Obj(0, 0, mem, Free, [])
  }

  // ----- the steps of one object

  function Last(o: Obj): Sub
    requires o.hist != []
  {
    o.hist[|o.hist| - 1]
  }

  function SetLast(o: Obj, s: Sub): Obj
    requires o.hist != []
  {
    o.(hist := o.hist[|o.hist| - 1 := s])
  }

  datatype Answer = Busy | Ready(res: Result) | InProgress

  /** The tests at the head of every `*_async` function. */
  function AsyncAnswer(o: Obj): Answer {
    if o.state != 0 then Busy
    else if o.op != 0 then Ready(Result(o.mem.w1, o.mem.w0))
    else InProgress
  }

  /** An `*_async` call up to the queue insertion. */
  function Async(o: Obj, op: nat, args: Words): Obj {
    match AsyncAnswer(o)
    case Busy => o
    case Ready(res) =>
      var o' := o.(op := 0);
      if o.hist == [] then o' else SetLast(o', Last(o).(collected := Some(res)))
    case InProgress =>
      o.(mem := StoreArgs(op, args, o.mem), op := op, place := Submitting,
         hist := o.hist + [Sub(op, args, false, None, false, 0, None)])
  }

  function Accept(o: Obj): Obj
    requires o.hist != []
  {
    SetLast(o.(place := InSq), Last(o).(accepted := true))
  }

  function Reject(o: Obj): Obj {
    o.(op := 0, place := Free)
  }

  function TakenBy(o: Obj, w: nat): Obj {
    o.(place := AtWorker(w, Fetched))
  }

  /** _ffkcall_exec up to the answer of the system call, or its default case. */
  function Exec(o: Obj, w: nat, res: Result): Obj
    requires o.hist != []
  {
    if KnownOp(o.op) then
      SetLast(o.(place := AtWorker(w, Called(res))), Last(o).(run := Some((o.op, o.mem, res))))
    else o.(state := 0, place := Free)
  }

  function StoreResult(o: Obj, w: nat, res: Result): Obj {
    o.(mem := o.mem.(w1 := res.value), place := AtWorker(w, Stored(res)))
  }

  function StoreError(o: Obj, w: nat, res: Result): Obj {
    o.(mem := o.mem.(w0 := res.error), place := AtWorker(w, Done))
  }

  function Mark(o: Obj, w: nat): Obj {
    o.(state := 2, place := AtWorker(w, Marked))
  }

  function Complete(o: Obj): Obj {
    o.(place := InCq)
  }

  function TakenByReader(o: Obj): Obj {
    o.(place := AtReader(false))
  }

  function Clear(o: Obj): Obj {
    o.(state := 0, place := AtReader(true))
  }

  /** The handler is called unless the operation was cancelled. */
  function Deliver(o: Obj): Obj
    requires o.hist != []
  {
    if o.op == 0 then o.(place := Free)
    else SetLast(o.(place := Free), Last(o).(handled := Last(o).handled + 1))
  }

  /** ffkcall_cancel. Only what has not been delivered yet counts as cancelled. */
  function Cancel(o: Obj): Obj {
    var o' := o.(op := 0);
    if o.place.Free? || o.hist == [] then o' else SetLast(o', Last(o).(cancelled := true))
  }

  // ----- what every step keeps

  /** The system was asked exactly what was submitted. */
  ghost predicate RunMatches(s: Sub) {
    s.run.Some? ==> s.run.value.0 == s.op && SameArgs(s.op, s.args, s.run.value.1)
  }

  ghost predicate SubOk(s: Sub) {
    && KnownOp(s.op)
    && RunMatches(s)
    && s.handled <= 1
    && (s.cancelled ==> s.handled == 0)
    && (s.handled == 1 ==> s.accepted && s.run.Some?)
    && (s.collected.Some? ==> s.handled == 1 && s.collected.value == s.run.value.2)
  }

  /** A submission nothing more will happen to, except collecting its result. */
  ghost predicate Settled(s: Sub) {
    SubOk(s) && (s.accepted && !s.cancelled ==> s.handled == 1)
  }

  /** A submission under way. */
  ghost predicate Flying(s: Sub, op: nat) {
    SubOk(s) && s.handled == 0 && s.collected.None? && op == (if s.cancelled then 0 else s.op)
  }

  ghost predicate ResultIn(s: Sub, mem: Words) {
    s.run.Some? && s.run.value.2 == Result(mem.w1, mem.w0)
  }

  ghost predicate PlaceOk(o: Obj)
    requires o.hist != []
  {
    var s := Last(o);
    match o.place
    case Free =>
      o.state == 0 && Settled(s) && (o.op != 0 ==> s.handled == 1 && s.collected.None? && ResultIn(s, o.mem))
    case Submitting =>
      o.state == 0 && Flying(s, o.op) && !s.accepted && s.run.None? && SameArgs(s.op, s.args, o.mem)
    case InSq =>
      o.state == 0 && Flying(s, o.op) && s.accepted && s.run.None? && SameArgs(s.op, s.args, o.mem)
    case AtWorker(_, at) =>
      && Flying(s, o.op) && s.accepted
      && (match at
          case Fetched => o.state == 0 && s.run.None? && SameArgs(s.op, s.args, o.mem)
          case Called(res) => o.state == 0 && s.run.Some? && s.run.value.2 == res
          case Stored(res) => o.state == 0 && s.run.Some? && s.run.value.2 == res && o.mem.w1 == res.value
          case Done => o.state == 0 && ResultIn(s, o.mem)
          case Marked => o.state == 2 && ResultIn(s, o.mem))
    case InCq =>
      o.state == 2 && Flying(s, o.op) && s.accepted && ResultIn(s, o.mem)
    case AtReader(cleared) =>
      o.state == (if cleared then 0 else 2) && Flying(s, o.op) && s.accepted && ResultIn(s, o.mem)
  }

  ghost predicate ObjOk(o: Obj) {
    if o.hist == [] then o.place.Free? && o.op == 0 && o.state == 0
    else PlaceOk(o) && forall j :: 0 <= j < |o.hist| - 1 ==> Settled(o.hist[j])
  }

  lemma SetLastOk(o: Obj, s: Sub)
    requires o.hist != [] && forall j :: 0 <= j < |o.hist| - 1 ==> Settled(o.hist[j])
    ensures forall j :: 0 <= j < |o.hist| - 1 ==> Settled(SetLast(o, s).hist[j])
    ensures |SetLast(o, s).hist| == |o.hist| && Last(SetLast(o, s)) == s
  {
  }

  /** The discipline: an `*_async` call is made when the object is free, or gets the busy answer. */
  lemma AsyncOk(o: Obj, op: nat, args: Words)
    requires ObjOk(o) && KnownOp(op) && (o.place.Free? || o.state == 2)
    ensures ObjOk(Async(o, op, args))
    ensures Async(o, op, args).place.Submitting? || Async(o, op, args).place == o.place
    ensures AsyncAnswer(o).Ready? ==>
              o.hist != [] && Last(o).run.Some? && AsyncAnswer(o).res == Last(o).run.value.2
  {
    match AsyncAnswer(o)
    case Busy =>
    case Ready(res) => SetLastOk(o.(op := 0), Last(o).(collected := Some(res)));
    case InProgress =>
      var o' := Async(o, op, args);
      assert Last(o').op == op;
      forall j | 0 <= j < |o'.hist| - 1 ensures Settled(o'.hist[j]) {
        assert o'.hist[j] == o.hist[j];
      }
  }

  lemma QueueStepsOk(o: Obj)
    requires ObjOk(o)
    ensures o.place.Submitting? ==> ObjOk(Accept(o)) && ObjOk(Reject(o))
    ensures forall w :: o.place.InSq? ==> ObjOk(TakenBy(o, w))
    ensures o.place.InCq? ==> ObjOk(TakenByReader(o))
  {
    if o.place.Submitting? {
      SetLastOk(o.(place := InSq), Last(o).(accepted := true));
    }
  }

  lemma WorkerStepsOk(o: Obj, w: nat, res: Result)
    requires ObjOk(o) && o.place.AtWorker?
    ensures o.place.at.Fetched? ==> ObjOk(Exec(o, w, res))
    ensures o.place.at.Called? ==> ObjOk(StoreResult(o, w, o.place.at.res))
    ensures o.place.at.Stored? ==> ObjOk(StoreError(o, w, o.place.at.res))
    ensures o.place.at.Done? ==> ObjOk(Mark(o, w))
    ensures o.place.at.Marked? ==> ObjOk(Complete(o))
  {
    if o.place.at.Fetched? && KnownOp(o.op) {
      SetLastOk(o.(place := AtWorker(w, Called(res))), Last(o).(run := Some((o.op, o.mem, res))));
    }
  }

  lemma ReaderStepsOk(o: Obj)
    requires ObjOk(o) && o.place.AtReader?
    ensures !o.place.cleared ==> ObjOk(Clear(o))
    ensures o.place.cleared ==> ObjOk(Deliver(o))
  {
    if o.op != 0 {
      SetLastOk(o.(place := Free), Last(o).(handled := Last(o).handled + 1));
    }
  }

  lemma CancelOk(o: Obj)
    requires ObjOk(o)
    ensures ObjOk(Cancel(o)) && Cancel(o).place == o.place
  {
    if o.hist != [] && !o.place.Free? {
      SetLastOk(o.(op := 0), Last(o).(cancelled := true));
    }
  }

  // ----- why the discipline is needed

  /** What a caller knows of its last submission: it was accepted and its handler has not run. */
  predicate UnderWay(o: Obj) {
    o.hist != [] && Last(o).accepted && Last(o).handled == 0
  }

  predicate LastCancelled(o: Obj) {
    o.hist != [] && Last(o).cancelled
  }

  /** Unless it cancelled, a caller outside its own call knows whether the object is free: it never submitted,
      was refused, or its handler has run. */
  lemma FreeIffNotUnderWay(o: Obj)
    requires ObjOk(o) && !o.place.Submitting? && !LastCancelled(o)
    ensures o.place.Free? <==> !UnderWay(o)
  {
  }

  /** The answer of an `*_async` call is right: busy only while under way, a result only once delivered and
      then the one computed, a new submission only when nothing is under way. */
  ghost predicate AnswerRight(o: Obj) {
    match AsyncAnswer(o)
    case Busy => UnderWay(o)
    case Ready(res) => o.hist != [] && Last(o).handled == 1 && Last(o).run.Some? && res == Last(o).run.value.2
    case InProgress => !UnderWay(o)
  }

  /** Since no code sets state 1, the answer is right exactly when nothing is under way or the state field already
      says complete. */
  lemma AnswerRightIff(o: Obj)
    requires ObjOk(o) && !o.place.Submitting? && !LastCancelled(o)
    ensures AnswerRight(o) <==> !UnderWay(o) || o.state == 2
  {
  }

  /** Asked while the object waits in the submission queue, the call returns the submitted arguments as a result. */
  lemma EarlyAsyncReturnsArguments(o: Obj)
    requires ObjOk(o) && o.place.InSq? && o.op != 0
    ensures AsyncAnswer(o) == Ready(Result(Last(o).args.w1, Last(o).args.w0))
  {
  }

  // ----- histories only grow

  /** `t` is a later state of submission `s`. */
  ghost predicate LaterSub(s: Sub, t: Sub) {
    && t.op == s.op && t.args == s.args
    && (s.accepted ==> t.accepted) && (s.cancelled ==> t.cancelled)
    && s.handled <= t.handled
  }

  ghost predicate Later(o: Obj, p: Obj) {
    |o.hist| <= |p.hist| && forall j :: 0 <= j < |o.hist| ==> LaterSub(o.hist[j], p.hist[j])
  }

  lemma LaterTransitive(o: Obj, p: Obj, r: Obj)
    requires Later(o, p) && Later(p, r)
    ensures Later(o, r)
  {
  }

  lemma AsyncLater(o: Obj, op: nat, args: Words)
    ensures Later(o, Async(o, op, args))
  {
  }

  lemma OwnedLater(o: Obj, w: nat, res: Result)
    ensures Later(o, o) && Later(o, Cancel(o))
    ensures o.hist != [] ==> Later(o, Accept(o)) && Later(o, Exec(o, w, res)) && Later(o, Deliver(o))
  {
  }
}
