/** The timer thread on Windows: commands and results handed over through two auto-reset events. */
module TimerThread {
  import opened Basics
  import opened WrapTime

  datatype Cmd = Exit | Start | Stop

  /** Where the commanding thread is. `Ordered` has written the command, `Awaiting` has signalled it and waits
      for the result event, `Collecting` has consumed that event; closing ends in `Joining` and `Closed`. */
  datatype Caller = Idle | Ordered(cmd: Cmd) | Awaiting | Collecting | Closing | Joining | Closed

  /** Where the timer thread is; only `Sleeping` is alertable. */
  datatype Thread = Sleeping | Woken | Running(cmd: Cmd) | Answering(r: int) | Signalling | Exited

  /** One command as given and, once run, what the system answered. */
  datatype Order = Order(cmd: Cmd, period: int)
  datatype Done = Done(order: Order, r: int)

  /** What SetWaitableTimer is given: a due time in units of 100 ns and a period in ms, 0 for none. */
  datatype Arming = Arming(due: int, period: nat)

  function ArmingFor(period: int): Arming {
    Arming(period * 1000 * -10, if period >= 0 then period else 0)
  }

  /** The shared fields and events, both threads, how the timer is armed, if it is, and the record of what happened;
      `shots` counts the callbacks since the last successful start. */
  datatype State = State(ctl: Cmd, result: int, period: int, evt: bool, evtResult: bool, open: bool,
                         armed: Option<Arming>, caller: Caller, thread: Thread,
                         orders: seq<Order>, done: seq<Done>, returned: seq<int>, shots: nat)

  datatype Step =
    | Command(cmd: Cmd, period: int)
    | SetEvt
    | TakeEvtResult
    | ReturnResult
    | CloseTimer
    | WriteExit
    | Join
    | WakeUp
    | ReadCtl
    | RunCmd(r: int)
    | WriteResult
    | SetEvtResult
    | Fire

  function Init(): State {
    State(Exit, 0, 0, false, false, true, None, Idle, Sleeping, [], [], [], 0)
  }

  predicate Enabled(s: State, e: Step) {
    match e
    case Command(cmd, _) => s.caller.Idle? && !cmd.Exit?
    case SetEvt => s.caller.Ordered?
    case TakeEvtResult => s.caller.Awaiting? && s.evtResult
    case ReturnResult => s.caller.Collecting?
    case CloseTimer => s.caller.Idle?
    case WriteExit => s.caller.Closing?
    case Join => s.caller.Joining? && s.thread.Exited?
    case WakeUp => s.thread.Sleeping? && s.evt
    case ReadCtl => s.thread.Woken?
    case RunCmd(_) => s.thread.Running?
    case WriteResult => s.thread.Answering?
    case SetEvtResult => s.thread.Signalling?
    case Fire => s.thread.Sleeping? && s.armed.Some?
  }

  function Next(s: State, e: Step): State
    requires Enabled(s, e)
  {
    match e
    case Command(cmd, period) =>
      var p := if cmd.Start? then period else s.period;
      s.(period := p, ctl := cmd, caller := Ordered(cmd), orders := s.orders + [Order(cmd, p)])
    case SetEvt => s.(evt := true, caller := if s.caller.cmd.Exit? then Joining else Awaiting)
    case TakeEvtResult => s.(evtResult := false, caller := Collecting)
    case ReturnResult => s.(returned := s.returned + [s.result], caller := Idle)
    case CloseTimer => s.(open := false, armed := None, caller := Closing)
    case WriteExit => s.(ctl := Exit, caller := Ordered(Exit))
    case Join => s.(caller := Closed)
    case WakeUp => s.(evt := false, thread := Woken)
    case ReadCtl => s.(thread := if s.ctl.Exit? then Exited else Running(s.ctl))
    case RunCmd(r) =>
      s.(armed := if r != 0 then s.armed else if s.thread.cmd.Start? then Some(ArmingFor(s.period)) else None,
         shots := if r == 0 && s.thread.cmd.Start? then 0 else s.shots,
         thread := Answering(r),
         done := s.done + [Done(Order(s.thread.cmd, s.period), r)])
    case WriteResult => s.(result := s.thread.r, thread := Signalling)
    case SetEvtResult => s.(evtResult := true, thread := Sleeping)
    case Fire => s.(shots := s.shots + 1, armed := if s.armed.value.period == 0 then None else s.armed)
  }

  ghost predicate Possible(s: State, es: seq<Step>)
    decreases |es|
  {
    es != [] ==> Enabled(s, es[0]) && Possible(Next(s, es[0]), es[1..])
  }

  ghost function RunAll(s: State, es: seq<Step>): State
    requires Possible(s, es)
    decreases |es|
  {
    if es == [] then s else RunAll(Next(s, es[0]), es[1..])
  }

  // ----- the handshake

  predicate Executing(s: State) {
    s.thread.Woken? || s.thread.Running? || s.thread.Answering? || s.thread.Signalling?
  }

  /** The last order has been run and its answer is what the result field holds or will hold. */
  ghost predicate Answered(s: State, r: int) {
    |s.done| == |s.orders| && s.done != [] && s.done[|s.done| - 1].r == r
  }

  ghost predicate Handshake(s: State) {
    match s.caller
    case Idle => s.open && s.thread.Sleeping? && !s.evt && !s.evtResult && |s.done| == |s.orders| == |s.returned|
    case Ordered(cmd) =>
      && s.ctl == cmd && s.thread.Sleeping? && !s.evt && !s.evtResult
      && (if cmd.Exit? then s.armed.None? && |s.done| == |s.orders| == |s.returned|
          else s.open && |s.done| + 1 == |s.orders| == |s.returned| + 1 && s.orders[|s.orders| - 1] == Order(cmd, s.period))
    case Awaiting =>
      && s.open && !s.ctl.Exit? && |s.orders| == |s.returned| + 1 && s.orders[|s.orders| - 1] == Order(s.ctl, s.period)
      && (match s.thread
          case Sleeping => (s.evt && !s.evtResult && |s.done| + 1 == |s.orders|)
                        || (!s.evt && s.evtResult && Answered(s, s.result))
          case Woken => !s.evt && !s.evtResult && |s.done| + 1 == |s.orders|
          case Running(cmd) => !s.evt && !s.evtResult && cmd == s.ctl && |s.done| + 1 == |s.orders|
          case Answering(r) => !s.evt && !s.evtResult && Answered(s, r)
          case Signalling => !s.evt && !s.evtResult && Answered(s, s.result)
          case Exited => false)
    case Collecting =>
      s.open && s.thread.Sleeping? && !s.evt && !s.evtResult && |s.orders| == |s.returned| + 1 && Answered(s, s.result)
    case Closing => s.thread.Sleeping? && !s.evt && !s.evtResult && s.armed.None? && |s.done| == |s.orders| == |s.returned|
    case Joining =>
      && s.ctl.Exit? && s.armed.None? && |s.done| == |s.orders| == |s.returned|
      && ((s.thread.Sleeping? && s.evt) || (s.thread.Woken? && !s.evt) || (s.thread.Exited? && !s.evt))
    case Closed => s.thread.Exited? && |s.done| == |s.orders| == |s.returned|
  }

  /** The k-th command returned the answer to the k-th order, and that order was run as given. */
  ghost predicate OwnResults(s: State) {
    && |s.returned| <= |s.done| <= |s.orders|
    && (forall k :: 0 <= k < |s.done| ==> s.done[k].order == s.orders[k])
    && (forall k :: 0 <= k < |s.returned| ==> s.returned[k] == s.done[k].r)
  }

  ghost predicate Inv(s: State) {
    Handshake(s) && OwnResults(s)
  }

  lemma StepKeepsInv(s: State, e: Step)
    requires Inv(s) && Enabled(s, e)
    ensures Inv(Next(s, e))
  {
  }

  lemma {:induction false} RunKeepsInv(s: State, es: seq<Step>)
    requires Inv(s) && Possible(s, es)
    ensures Inv(RunAll(s, es))
    decreases |es|
  {
    if es != [] {
      StepKeepsInv(s, es[0]);
      RunKeepsInv(Next(s, es[0]), es[1..]);
    }
  }

  function Count(b: bool): nat {
    if b then 1 else 0
  }

  /** While a caller waits, exactly one of these holds: the request is signalled, it is being executed, the
      result is signalled. Every result returned so far was the system's answer to that very command. */
  lemma WaitingIsExclusive(es: seq<Step>)
    requires Possible(Init(), es)
    ensures var s := RunAll(Init(), es);
            && (s.caller.Awaiting? ==> Count(s.evt) + Count(Executing(s)) + Count(s.evtResult) == 1)
            && OwnResults(s)
  {
    RunKeepsInv(Init(), es);
  }

  // ----- no deadlock

  predicate Own(e: Step) {
    !e.Command? && !e.CloseTimer? && !e.Fire?
  }

  /** How many steps are left until the caller is idle or closed. */
  function Rank(s: State): nat {
    var t := match s.thread
      case Sleeping => if s.evt then 5 else 0
      case Woken => 4
      case Running(_) => 3
      case Answering(_) => 2
      case Signalling => 1
      case Exited => 0;
    match s.caller
    case Idle => 0
    case Ordered(_) => 8
    case Awaiting => 2 + t
    case Collecting => 1
    case Closing => 9
    case Joining => 1 + t
    case Closed => 0
  }

  /** A command under way always has a next step, and every such step brings its end closer. */
  lemma NeverStuck(s: State)
    requires Inv(s) && !s.caller.Idle? && !s.caller.Closed?
    ensures exists e: Step :: Own(e) && Enabled(s, e)
  {
    var e :=
      match s.caller
      case Ordered(_) => SetEvt
      case Collecting => ReturnResult
      case Closing => WriteExit
      case _ =>
        match s.thread
        case Sleeping => if s.evt then WakeUp else TakeEvtResult
        case Woken => ReadCtl
        case Running(_) => RunCmd(0)
        case Answering(_) => WriteResult
        case Signalling => SetEvtResult
        case Exited => Join;
    assert Own(e) && Enabled(s, e);
  }

  lemma StepsComeToAnEnd(s: State, e: Step)
    requires Inv(s) && Enabled(s, e)
    ensures Own(e) ==> Rank(Next(s, e)) < Rank(s)
    ensures e.Fire? ==> Rank(Next(s, e)) == Rank(s)
  {
  }

  /** A caller gets back after at most nine steps of the two threads, however often the timer fires meanwhile. */
  lemma {:induction false} BoundedWait(s: State, es: seq<Step>)
    requires Inv(s) && Possible(s, es) && forall i :: 0 <= i < |es| ==> Own(es[i]) || es[i].Fire?
    ensures |OwnSteps(es)| <= Rank(s) <= 9
    decreases |es|
  {
    if es != [] {
      StepKeepsInv(s, es[0]);
      StepsComeToAnEnd(s, es[0]);
      BoundedWait(Next(s, es[0]), es[1..]);
    }
  }

  function OwnSteps(es: seq<Step>): seq<Step> {
    if es == [] then [] else (if Own(es[0]) then [es[0]] else []) + OwnSteps(es[1..])
  }

  // ----- what was commanded is what is recorded

  /** The commands given in a run: a start gives its period, any other leaves the last one standing. */
  function Given(es: seq<Step>, period: int): seq<Order> {
    if es == [] then []
    else if es[0].Command? then
      var p := if es[0].cmd.Start? then es[0].period else period;
      [Order(es[0].cmd, p)] + Given(es[1..], p)
    else Given(es[1..], period)
  }

  /** What the system answered in a run. */
  function Answers(es: seq<Step>): seq<int> {
    if es == [] then [] else (if es[0].RunCmd? then [es[0].r] else []) + Answers(es[1..])
  }

  function Results(done: seq<Done>): (rs: seq<int>)
    ensures |rs| == |done| && forall k :: 0 <= k < |done| ==> rs[k] == done[k].r
  {
    seq(|done|, k requires 0 <= k < |done| => done[k].r)
  }

  lemma {:induction false} RecordsAreTrue(s: State, es: seq<Step>)
    requires Possible(s, es)
    ensures RunAll(s, es).orders == s.orders + Given(es, s.period)
    ensures Results(RunAll(s, es).done) == Results(s.done) + Answers(es)
    decreases |es|
  {
    if es != [] {
      var s' := Next(s, es[0]);
      RecordsAreTrue(s', es[1..]);
      assert Results(s'.done) == Results(s.done) + if es[0].RunCmd? then [es[0].r] else [];
    }
  }

  // ----- when callbacks run

  /** The k-th command is the last one that succeeded. */
  ghost predicate LastSuccess(done: seq<Done>, k: nat)
    requires k < |done|
  {
    done[k].r == 0 && forall j :: k < j < |done| ==> done[j].r != 0
  }

  /** The k-th command is the last successful start. */
  ghost predicate LastStart(done: seq<Done>, k: nat)
    requires k < |done|
  {
    done[k].order.cmd.Start? && done[k].r == 0 && forall j :: k < j < |done| ==> done[j].r != 0 || !done[j].order.cmd.Start?
  }

  /** How a timer started with this period is armed after so many callbacks: a single one if the period is not positive. */
  function StartedWith(period: int, shots: nat): Option<Arming> {
    if period <= 0 && shots > 0 then None else Some(Arming(-10_000 * period, if period > 0 then period else 0))
  }

  /** How the commands run so far leave the timer armed: as the last one that succeeded says. */
  function Expected(done: seq<Done>, shots: nat): Option<Arming> {
    if done == [] then None
    else
      var last := done[|done| - 1];
      if last.r != 0 then Expected(done[..|done| - 1], shots)
      else if last.order.cmd.Start? then StartedWith(last.order.period, shots)
      else None
  }

  ghost predicate ArmedAsExpected(s: State) {
    s.armed == if s.open then Expected(s.done, s.shots) else None
  }

  /** If the last successful start asked for a single callback, there has been at most one since, and after it the
      timer is not armed. */
  ghost predicate OneShot(s: State) {
    forall k :: 0 <= k < |s.done| && LastStart(s.done, k) && s.done[k].order.period <= 0 ==>
      s.shots <= 1 && (s.armed.Some? ==> s.shots == 0)
  }

  lemma {:induction false} ExpectedOfLast(done: seq<Done>, k: nat, shots: nat)
    requires k < |done| && LastSuccess(done, k)
    ensures Expected(done, shots) ==
              if done[k].order.cmd.Start? then StartedWith(done[k].order.period, shots) else None
  {
    if k < |done| - 1 {
      assert done[|done| - 1].r != 0;
      ExpectedOfLast(done[..|done| - 1], k, shots);
    }
  }

  lemma {:induction false} ExpectedOfNone(done: seq<Done>, shots: nat)
    requires forall k :: 0 <= k < |done| ==> done[k].r != 0
    ensures Expected(done, shots) == None
  {
    if done != [] {
      ExpectedOfNone(done[..|done| - 1], shots);
    }
  }

  /** An armed timer has a start as its last success. */
  lemma {:induction false} ExpectedHasStart(done: seq<Done>, shots: nat) returns (k: nat)
    requires Expected(done, shots).Some?
    ensures k < |done| && LastSuccess(done, k) && done[k].order.cmd.Start?
    ensures Expected(done, shots) == StartedWith(done[k].order.period, shots)
  {
    k := |done| - 1;
    if done[k].r != 0 {
      k := ExpectedHasStart(done[..|done| - 1], shots);
      assert forall j :: 0 <= j < |done| - 1 ==> done[..|done| - 1][j] == done[j];
    }
  }

  lemma OneLastStart(done: seq<Done>, j: nat, k: nat)
    requires j < |done| && k < |done| && LastStart(done, j) && LastSuccess(done, k) && done[k].order.cmd.Start?
    ensures j == k
  {
  }

  lemma RunCmdKeepsArming(s: State, r: int)
    requires Inv(s) && ArmedAsExpected(s) && OneShot(s) && Enabled(s, RunCmd(r))
    ensures ArmedAsExpected(Next(s, RunCmd(r))) && OneShot(Next(s, RunCmd(r)))
  {
    var s' := Next(s, RunCmd(r));
    var n := |s.done|;
    assert s'.done[..n] == s.done;
    forall k | 0 <= k < n + 1 && LastStart(s'.done, k) && s'.done[k].order.period <= 0
      ensures s'.shots <= 1 && (s'.armed.Some? ==> s'.shots == 0)
    {
      if k < n {
        assert s'.done[n].r != 0 || !s'.done[n].order.cmd.Start?;
        assert forall j :: 0 <= j < n ==> s'.done[j] == s.done[j];
        assert LastStart(s.done, k);
      }
    }
  }

  lemma FireKeepsArming(s: State)
    requires ArmedAsExpected(s) && OneShot(s) && Enabled(s, Fire)
    ensures ArmedAsExpected(Next(s, Fire)) && OneShot(Next(s, Fire))
  {
    var k := ExpectedHasStart(s.done, s.shots);
    ExpectedOfLast(s.done, k, s.shots + 1);
    forall j | 0 <= j < |s.done| && LastStart(s.done, j) ensures j == k {
      OneLastStart(s.done, j, k);
    }
  }

  lemma StepKeepsArming(s: State, e: Step)
    requires Inv(s) && ArmedAsExpected(s) && OneShot(s) && Enabled(s, e)
    ensures ArmedAsExpected(Next(s, e)) && OneShot(Next(s, e))
  {
    if e.RunCmd? {
      RunCmdKeepsArming(s, e.r);
    } else if e.Fire? {
      FireKeepsArming(s);
    } else {
      assert Next(s, e).done == s.done && Next(s, e).shots == s.shots;
      assert Next(s, e).armed.Some? ==> Next(s, e).armed == s.armed;
    }
  }

  lemma {:induction false} RunKeepsArming(s: State, es: seq<Step>)
    requires Inv(s) && ArmedAsExpected(s) && OneShot(s) && Possible(s, es)
    ensures ArmedAsExpected(RunAll(s, es)) && OneShot(RunAll(s, es))
    decreases |es|
  {
    if es != [] {
      StepKeepsInv(s, es[0]);
      StepKeepsArming(s, es[0]);
      RunKeepsArming(Next(s, es[0]), es[1..]);
    }
  }

  /** In any run: no callback once a successful stop has returned and no start has followed, none once closing
      has begun, and after close has returned no step of either thread at all. */
  lemma NoCallbackAfterStopOrClose(es: seq<Step>)
    requires Possible(Init(), es)
    ensures var s := RunAll(Init(), es);
            && (s.done != [] && s.done[|s.done| - 1].order.cmd.Stop? && s.done[|s.done| - 1].r == 0 ==> !Enabled(s, Fire))
            && (s.caller.Closing? || s.caller.Joining? || s.caller == Ordered(Exit) ==> !Enabled(s, Fire))
            && (s.caller.Closed? ==> forall e: Step :: !Enabled(s, e))
  {
    RunKeepsInv(Init(), es);
    RunKeepsArming(Init(), es);
  }

  /** In any run, until closing begins, the timer is armed exactly as the last command that succeeded says: after a start
      with its own period, unless it was for a single callback that has come, and not at all after a stop. So a
      callback is possible whenever the timer thread sleeps and one is still owed. */
  lemma ArmedAsCommanded(es: seq<Step>, k: nat)
    requires Possible(Init(), es) && k < |RunAll(Init(), es).done| && LastSuccess(RunAll(Init(), es).done, k)
    ensures var s := RunAll(Init(), es);
            && k < |s.orders|
            && var cmd, p := s.orders[k].cmd, s.orders[k].period;
               && (s.open && cmd.Start? ==>
                     s.armed == if p <= 0 && s.shots > 0 then None else Some(Arming(-10_000 * p, if p > 0 then p else 0)))
               && (s.open && cmd.Start? && (p > 0 || s.shots == 0) && s.thread.Sleeping? ==> Enabled(s, Fire))
               && (!s.open || cmd.Stop? ==> s.armed == None)
  {
    RunKeepsInv(Init(), es);
    RunKeepsArming(Init(), es);
    var s := RunAll(Init(), es);
    assert s.done[k].order == s.orders[k];
    ExpectedOfLast(s.done, k, s.shots);
  }

  /** A timer that no command has started successfully is not armed. */
  lemma NotArmedUnasked(es: seq<Step>)
    requires Possible(Init(), es) && forall k :: 0 <= k < |Answers(es)| ==> Answers(es)[k] != 0
    ensures RunAll(Init(), es).armed == None
  {
    var s := RunAll(Init(), es);
    RunKeepsInv(Init(), es);
    RunKeepsArming(Init(), es);
    RecordsAreTrue(Init(), es);
    assert Results(s.done) == Answers(es);
    assert forall k :: 0 <= k < |s.done| ==> s.done[k].r == Results(s.done)[k];
    ExpectedOfNone(s.done, s.shots);
  }

  /** In any run a timer last started with a period that is not positive calls back at most once. */
  lemma SingleCallback(es: seq<Step>, k: nat)
    requires Possible(Init(), es) && k < |RunAll(Init(), es).done| && LastStart(RunAll(Init(), es).done, k)
    ensures var s := RunAll(Init(), es);
            k < |s.orders| && (s.orders[k].period <= 0 ==> s.shots <= 1)
  {
    RunKeepsInv(Init(), es);
    RunKeepsArming(Init(), es);
    assert RunAll(Init(), es).done[k].order == RunAll(Init(), es).orders[k];
  }

  // ----- when the first callback comes

  /** The rule of SetWaitableTimer: a negative due time counts from now, any other is a point of system time, which
      is counted from the year 1601 in units of 100 ns. */
  function Delay(a: Arming, systemTime: nat): nat {
    if a.due < 0 then -a.due else if a.due > systemTime then a.due - systemTime else 0
  }

  /** The first callback comes after the magnitude of the period, as documented, if and only if the period is not
      negative or system time stands at its very beginning. */
  lemma DelayAsDocumentedIff(period: int, systemTime: nat)
    ensures Delay(ArmingFor(period), systemTime) == 10_000 * Abs(period) <==> period >= 0 || systemTime == 0
  {
  }

  /** A negative 32-bit period, documented as one callback after its magnitude, asks for a point of time in January
      1601: ever after, the callback comes at once. The product fits in 64 bits. */
  lemma NegativePeriodFiresAtOnce(period: int, systemTime: nat)
    requires -HALF <= period < 0 && 10_000 * HALF <= systemTime
    ensures 0 < ArmingFor(period).due < HALF * WORD
    ensures Delay(ArmingFor(period), systemTime) == 0 < 10_000 * Abs(period)
  {
  }
}
