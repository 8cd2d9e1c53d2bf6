/** Whole runs of the timer queue: time passes, timers are added and removed, and drains are entered,
    also from callbacks, to any depth. */
module TimerRun {
  import opened WrapTime
  import opened TimerTree
  import opened TimerSpec
  import opened TimerProcess
  import opened TimerQueue

  /** `Enter` calls fftimerqueue_process; `Round` runs one round of the innermost call, which fires one
      timer or returns. Whatever happens between two rounds is what the callback does. */
  datatype Event<T> = Tick(to: int) | AddTimer(id: T, interval: int) | RemoveTimer(id: T) | Enter | Round

  /** `anchor`: everything due by then has been fired. `calls`: the time argument of each unfinished drain. */
  datatype Run<T> = Run(s: State<T>, clock: int, anchor: int, calls: seq<int>, log: seq<Entry<T>>)

  /** Intervals are at most M ms; no more than L ms go by without a finished drain, nor within one. */
  datatype Bounds = Bounds(L: nat, M: nat)

  predicate Enabled<T>(r: Run<T>, e: Event<T>, b: Bounds) {
    match e
    case Tick(to) => r.clock <= to <= r.anchor + b.L && forall i :: 0 <= i < |r.calls| ==> to <= r.calls[i] + b.L
    case AddTimer(_, interval) => Abs(interval) <= b.M
    case RemoveTimer(_) => true
    case Enter => true
    case Round => r.calls != []
  }

  function Next<T(==)>(r: Run<T>, e: Event<T>): Run<T>
    requires e.Round? ==> r.calls != []
  {
    match e
    case Tick(to) => r.(clock := to)
    case AddTimer(id, interval) => r.(s := Add(r.s, id, r.clock, interval))
    case RemoveTimer(id) => r.(s := Remove(r.s, id))
    case Enter => r.(calls := r.calls + [r.clock])
    case Round =>
      var now := r.calls[|r.calls| - 1];
      if Expired(r.s, now) then r.(s := Fire(r.s, now), log := r.log + [r.s.q[0]])
      else r.(calls := r.calls[..|r.calls| - 1], anchor := Max(r.anchor, now))
  }

  ghost predicate Disciplined<T>(r: Run<T>, es: seq<Event<T>>, b: Bounds)
    decreases |es|
  {
    es != [] ==> Enabled(r, es[0], b) && Disciplined(Next(r, es[0]), es[1..], b)
  }

  ghost function RunAll<T>(r: Run<T>, es: seq<Event<T>>, b: Bounds): Run<T>
    requires Disciplined(r, es, b)
    decreases |es|
  {
    if es == [] then r else RunAll(Next(r, es[0]), es[1..], b)
  }

  function Start<T>(clock: int): Run<T> {
    Run(State([], 0), clock, clock, [], [])
  }

  /** What every reachable state satisfies: due times lie between the anchor and M past the clock. */
  ghost predicate Inv<T>(r: Run<T>, b: Bounds) {
    && WellFormed(r.s)
    && r.anchor <= r.clock <= r.anchor + b.L
    && (forall i :: 0 <= i < |r.calls| ==> r.calls[i] <= r.clock <= r.calls[i] + b.L)
    && (forall i :: 0 <= i < |r.s.q| ==> r.anchor <= r.s.q[i].due <= r.clock + b.M && Abs(r.s.q[i].interval) <= b.M)
  }

  lemma FireKeepsInv<T>(r: Run<T>, b: Bounds)
    requires Inv(r, b) && r.calls != [] && Expired(r.s, r.calls[|r.calls| - 1])
    ensures Inv(Next(r, Round), b)
  {
    var now, e, s' := r.calls[|r.calls| - 1], r.s.q[0], Fire(r.s, r.calls[|r.calls| - 1]);
    FireWellFormed(r.s, now);
    if e.interval > 0 {
      RearmMovesForward(e.due, e.interval, now);
    }
    forall i | 0 <= i < |s'.q| ensures r.anchor <= s'.q[i].due <= r.clock + b.M && Abs(s'.q[i].interval) <= b.M {
      FireMember(r.s, now, s'.q[i]);
    }
  }

  lemma ReturnKeepsInv<T>(r: Run<T>, b: Bounds)
    requires Inv(r, b) && r.calls != [] && !Expired(r.s, r.calls[|r.calls| - 1])
    ensures Inv(Next(r, Round), b)
  {
    var q := r.s.q;
    forall i | 0 <= i < |q| ensures r.calls[|r.calls| - 1] < q[i].due {
      assert i == 0 || Before(q[0], q[i]);
    }
  }

  lemma AddKeepsInv<T>(r: Run<T>, id: T, interval: int, b: Bounds)
    requires Inv(r, b) && Abs(interval) <= b.M
    ensures Inv(r.(s := Add(r.s, id, r.clock, interval)), b)
  {
    var s' := Add(r.s, id, r.clock, interval);
    AddWellFormed(r.s, id, r.clock, interval);
    forall i | 0 <= i < |s'.q| ensures r.anchor <= s'.q[i].due <= r.clock + b.M && Abs(s'.q[i].interval) <= b.M {
      AddMember(r.s, id, r.clock, interval, s'.q[i]);
    }
  }

  lemma RemoveKeepsInv<T>(r: Run<T>, id: T, b: Bounds)
    requires Inv(r, b)
    ensures Inv(r.(s := Remove(r.s, id)), b)
  {
    RemoveWellFormed(r.s, id);
    forall i | 0 <= i < |Drop(r.s.q, id)| ensures Drop(r.s.q, id)[i] in r.s.q {
      DropMember(r.s.q, id, Drop(r.s.q, id)[i]);
    }
  }

  /** Every step keeps the window. */
  lemma StepKeepsInv<T>(r: Run<T>, e: Event<T>, b: Bounds)
    requires Inv(r, b) && Enabled(r, e, b)
    ensures Inv(Next(r, e), b)
  {
    match e
    case Tick(_) =>
    case AddTimer(id, interval) => AddKeepsInv(r, id, interval, b);
    case RemoveTimer(id) => RemoveKeepsInv(r, id, b);
    case Enter =>
    case Round =>
      if Expired(r.s, r.calls[|r.calls| - 1]) {
        FireKeepsInv(r, b);
      } else {
        ReturnKeepsInv(r, b);
      }
  }

  /** Every reachable state of a disciplined run is inside the window. */
  lemma {:induction false} RunKeepsInv<T>(r: Run<T>, es: seq<Event<T>>, b: Bounds)
    requires Inv(r, b) && Disciplined(r, es, b)
    ensures Inv(RunAll(r, es, b), b)
    decreases |es|
  {
    if es != [] {
      StepKeepsInv(r, es[0], b);
      RunKeepsInv(Next(r, es[0]), es[1..], b);
    }
  }

  /** Every comparison the code makes in 32 bits comes out as over unbounded time: whether a newer timer is due before
      an older one it was inserted next to, and whether a timer is due after the time of an unfinished drain. */
  ghost predicate ComparisonsRight<T>(r: Run<T>) {
    && (forall i, j :: 0 <= i < |r.s.q| && 0 <= j < |r.s.q| && r.s.q[j].born < r.s.q[i].born ==>
          (Diff(Key(r.s.q[i].due), Key(r.s.q[j].due)) < 0 <==> r.s.q[i].due < r.s.q[j].due))
    && (forall i, j :: 0 <= i < |r.s.q| && 0 <= j < |r.calls| ==>
          (Diff(Key(r.s.q[i].due), Key(r.calls[j])) > 0 <==> r.s.q[i].due > r.calls[j]))
  }

  /** Even the differences are the true ones. */
  ghost predicate DifferencesRight<T>(r: Run<T>) {
    && (forall i, j :: 0 <= i < |r.s.q| && 0 <= j < |r.s.q| ==>
          Diff(Key(r.s.q[i].due), Key(r.s.q[j].due)) == r.s.q[i].due - r.s.q[j].due)
    && (forall i, j :: 0 <= i < |r.s.q| && 0 <= j < |r.calls| ==>
          Diff(Key(r.s.q[i].due), Key(r.calls[j])) == r.s.q[i].due - r.calls[j])
  }

  lemma WindowMakesComparisonsRight<T>(r: Run<T>, b: Bounds)
    requires Inv(r, b) && b.L + b.M < HALF
    ensures ComparisonsRight(r) && DifferencesRight(r)
  {
    forall i, j | 0 <= i < |r.s.q| && 0 <= j < |r.s.q|
      ensures Diff(Key(r.s.q[i].due), Key(r.s.q[j].due)) == r.s.q[i].due - r.s.q[j].due
    {
      DiffIsTrueDifference(r.s.q[i].due, r.s.q[j].due);
    }
    forall i, j | 0 <= i < |r.s.q| && 0 <= j < |r.calls|
      ensures Diff(Key(r.s.q[i].due), Key(r.calls[j])) == r.s.q[i].due - r.calls[j]
    {
      DiffIsTrueDifference(r.s.q[i].due, r.calls[j]);
    }
  }

  /** A timer due at once and, some time later, one due exactly 2^31 after it: the comparison made when the second
      is inserted puts it before the first. */
  lemma TooFarApart(b: Bounds) returns (es: seq<Event<nat>>)
    requires b.L + b.M >= HALF
    ensures Disciplined(Start(0), es, b) && !ComparisonsRight(RunAll(Start(0), es, b))
  {
    var t := if b.L < HALF then b.L else HALF;
    var m := HALF - t;
    var e1, e2, e3 := AddTimer(0, 0), Tick(t), AddTimer(1, m);
    es := [e1, e2, e3];
    assert es[1..] == [e2, e3] && es[1..][1..] == [e3] && es[1..][1..][1..] == [];
    var r0: Run<nat> := Start(0);
    var r1 := Next(r0, e1);
    var r2 := Next(r1, e2);
    var r3 := Next(r2, e3);
    assert Disciplined(r3, [], b) && Disciplined(r2, [e3], b) && Disciplined(r1, [e2, e3], b);
    assert RunAll(r3, [], b) == r3 && RunAll(r2, [e3], b) == r3 && RunAll(r1, [e2, e3], b) == r3;
    var x, y := Added(r0.s, 0, 0, 0), Added(r2.s, 1, t, m);
    AddMember(r0.s, 0, 0, 0, x);
    AddMember(r2.s, 1, t, m, x);
    AddMember(r2.s, 1, t, m, y);
    var i :| 0 <= i < |r3.s.q| && r3.s.q[i] == x;
    var j :| 0 <= j < |r3.s.q| && r3.s.q[j] == y;
    WrongAtHalf();
  }

  lemma WrongAtHalf()
    ensures Diff(Key(HALF), Key(0)) < 0
  {
  }

  /** The 32-bit comparisons are right in every reachable state of every disciplined run if and only if L + M is
      below 2^31. */
  lemma BoundIsExact(b: Bounds)
    ensures (forall es: seq<Event<nat>> :: Disciplined(Start(0), es, b) ==> ComparisonsRight(RunAll(Start(0), es, b)))
            <==> b.L + b.M < HALF
  {
    if b.L + b.M < HALF {
      forall es: seq<Event<nat>> | Disciplined(Start(0), es, b) ensures ComparisonsRight(RunAll(Start(0), es, b)) {
        RunKeepsInv(Start(0), es, b);
        WindowMakesComparisonsRight(RunAll(Start(0), es, b), b);
      }
    } else {
      var es := TooFarApart(b);
    }
  }

  // ----- drains come to an end, nested ones too

  function Rounds<T>(es: seq<Event<T>>): nat {
    if es == [] then 0 else (if es[0].Round? then 1 else 0) + Rounds(es[1..])
  }

  function Enters<T>(es: seq<Event<T>>): nat {
    if es == [] then 0 else (if es[0].Enter? then 1 else 0) + Enters(es[1..])
  }

  /** While drains are at work the clock stands, and callbacks add only timers due later. */
  predicate DrainStep<T>(e: Event<T>) {
    !e.Tick? && (e.AddTimer? ==> e.interval != 0)
  }

  /** What is left to do: the lateness of pending timers, and the drains to return from. */
  function Work<T>(r: Run<T>): nat {
    Lateness(r.s.q, r.clock) + |r.calls|
  }

  lemma StepLessWork<T>(r: Run<T>, e: Event<T>, b: Bounds)
    requires Inv(r, b) && Enabled(r, e, b) && DrainStep(e)
    ensures Next(r, e).clock == r.clock
    ensures Work(Next(r, e)) + Rounds([e]) <= Work(r) + Enters([e])
  {
    match e
    case AddTimer(id, interval) =>
      LatenessDrop(r.s.q, id, r.clock);
      LatenessInsert(Drop(r.s.q, id), Added(r.s, id, r.clock, interval), r.clock);
    case RemoveTimer(id) => LatenessDrop(r.s.q, id, r.clock);
    case Enter =>
    case Round =>
      if Expired(r.s, r.calls[|r.calls| - 1]) {
        FireLessLate(r.s, r.calls[|r.calls| - 1], r.clock);
      }
  }

  lemma CountSplit<T>(e: Event<T>, es: seq<Event<T>>)
    ensures Rounds([e] + es) == Rounds([e]) + Rounds(es) && Enters([e] + es) == Enters([e]) + Enters(es)
  {
    assert ([e] + es)[1..] == es && [e][1..] == [];
  }

  /** However deep callbacks nest drains, no more rounds are run than the starting lateness, the drains already under
      way and those entered since: every drain entered returns unless ever more are entered. */
  lemma {:induction false} DrainsEnd<T>(r: Run<T>, es: seq<Event<T>>, b: Bounds)
    requires Inv(r, b) && Disciplined(r, es, b) && forall i :: 0 <= i < |es| ==> DrainStep(es[i])
    ensures Rounds(es) + Work(RunAll(r, es, b)) <= Lateness(r.s.q, r.clock) + |r.calls| + Enters(es)
    decreases |es|
  {
    if es != [] {
      StepLessWork(r, es[0], b);
      StepKeepsInv(r, es[0], b);
      assert es == [es[0]] + es[1..];
      CountSplit(es[0], es[1..]);
      DrainsEnd(Next(r, es[0]), es[1..], b);
    }
  }

  function Keys(ts: seq<int>): (ks: seq<Word>)
    ensures |ks| == |ts| && forall i :: 0 <= i < |ts| ==> ks[i] == Key(ts[i])
  {
    seq(|ts|, i requires 0 <= i < |ts| => Key(ts[i]))
  }

  /** The window as seen by the innermost drain. */
  lemma InnermostSpan<T>(r: Run<T>, b: Bounds) returns (lo: int, hi: int)
    requires Inv(r, b) && b.L + b.M < HALF && r.calls != []
    ensures Span(r.s.q, r.calls[|r.calls| - 1], lo, hi)
  {
    lo, hi := if r.anchor < r.calls[|r.calls| - 1] then r.anchor else r.calls[|r.calls| - 1], r.clock + b.M;
  }

  lemma NearAfterDrop<T>(r: Run<T>, id: T, interval: int, b: Bounds)
    requires Inv(r, b) && b.L + b.M < HALF && Abs(interval) <= b.M
    ensures Near(Drop(r.s.q, id), r.clock + Abs(interval))
  {
    forall i | 0 <= i < |Drop(r.s.q, id)| ensures Drop(r.s.q, id)[i] in r.s.q {
      DropMember(r.s.q, id, Drop(r.s.q, id)[i]);
    }
  }

  /** One round of a drain started at `time`: the node fired, or null when the drain returns. */
  method DoRound(tq: TimerQueue, now: Word, ghost time: int, ghost lo: int, ghost hi: int) returns (node: TimerNode?)
    requires tq.Valid() && now == Key(time) && Span(tq.pending.q, time, lo, hi)
    modifies tq`root, tq`shape, tq`pending, tq.known
    ensures tq.Valid() && (node != null <==> Expired(old(tq.pending), time))
    ensures node == null ==> tq.pending == old(tq.pending)
    ensures node != null ==> node == old(tq.pending).q[0].id && tq.pending == Fire(old(tq.pending), time)
  {
    node := tq.Due(now, time, lo, hi);
    if node != null {
      tq.FireNode(node, now, time, lo, hi);
    }
  }

  /** One event on the 32-bit queue. `now` is the 32-bit clock and `nows` the arguments of the unfinished drains.
      The result is the node fired, if any. */
  method Do(tq: TimerQueue, e: Event<TimerNode>, now: Word, nows: seq<Word>, ghost r: Run<TimerNode>, ghost b: Bounds)
    returns (nows': seq<Word>, fired: TimerNode?)
    requires tq.Valid() && tq.pending == r.s && now == Key(r.clock) && nows == Keys(r.calls)
    requires Inv(r, b) && Enabled(r, e, b) && b.L + b.M < HALF
    requires e.AddTimer? || e.RemoveTimer? ==> e.id in tq.known
    modifies tq`root, tq`shape, tq`pending, tq.known
    ensures tq.Valid() && tq.pending == Next(r, e).s && nows' == Keys(Next(r, e).calls)
    ensures fired == null ==> Next(r, e).log == r.log
    ensures fired != null ==> r.s.q != [] && fired == r.s.q[0].id && Next(r, e).log == r.log + [r.s.q[0]]
  {
    nows', fired := nows, null;
    match e {
      case Tick(_) =>
      case AddTimer(node, interval) =>
        NearAfterDrop(r, node, interval, b);
        tq.Add(node, now, interval, r.clock);
      case RemoveTimer(node) =>
        var _ := tq.Remove(node);
      case Enter =>
        KeysAppend(r.calls, r.clock);
        nows' := nows + [now];
      case Round =>
        ghost var lo, hi := InnermostSpan(r, b);
        fired := DoRound(tq, nows[|nows| - 1], r.calls[|r.calls| - 1], lo, hi);
        if fired == null {
          KeysInit(r.calls);
          nows' := nows[..|nows| - 1];
        }
    }
  }

  lemma KeysAppend(ts: seq<int>, t: int)
    ensures Keys(ts + [t]) == Keys(ts) + [Key(t)]
  {
  }

  lemma KeysInit(ts: seq<int>)
    requires ts != []
    ensures Keys(ts[..|ts| - 1]) == Keys(ts)[..|ts| - 1]
  {
  }

  function ClockAfter<T>(now: Word, e: Event<T>): Word {
    if e.Tick? then Key(e.to) else now
  }

  /** Over every disciplined run with L + M below 2^31, nested drains and the 32-bit wrap included, the queue of
      32-bit keys fires the same timers in the same order as the unbounded one and ends up as its image. */
  method Drive(tq: TimerQueue, start: int, es: seq<Event<TimerNode>>, ghost b: Bounds) returns (fired: seq<TimerNode>)
    requires tq.Valid() && tq.pending == State([], 0)
    requires forall i :: 0 <= i < |es| && (es[i].AddTimer? || es[i].RemoveTimer?) ==> es[i].id in tq.known
    requires b.L + b.M < HALF && Disciplined(Start(start), es, b)
    modifies tq`root, tq`shape, tq`pending, tq.known
    ensures tq.Valid() && tq.pending == RunAll(Start(start), es, b).s
    ensures fired == Ids(RunAll(Start(start), es, b).log)
  {
    ghost var r: Run<TimerNode> := Start(start);
    var now, nows := Key(start), [];
    fired := [];
    for i := 0 to |es|
      invariant tq.Valid() && tq.pending == r.s && now == Key(r.clock) && nows == Keys(r.calls)
      invariant Inv(r, b) && Disciplined(r, es[i..], b)
      invariant RunAll(r, es[i..], b) == RunAll(Start(start), es, b)
      invariant fired == Ids(r.log)
    {
      StepKeepsInv(r, es[i], b);
      assert es[i..][1..] == es[i + 1..];
      var node;
      nows, node := Do(tq, es[i], now, nows, r, b);
      now := ClockAfter(now, es[i]);
      if node != null {
        LogAppend(r.log, r.s.q[0]);
        fired := fired + [node as TimerNode];
      }
      r := Next(r, es[i]);
    }
  }
}
