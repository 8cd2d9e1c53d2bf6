/** One drain of the timer queue over unbounded time, with callbacks that re-enter the queue. */
module TimerProcess {
  import opened WrapTime
  import opened TimerSpec

  /** What a callback may do to the queue; `clock` is the time it reads. */
  datatype Cmd<T> = RemoveCmd(id: T) | AddCmd(id: T, clock: int, interval: int)

  /** The commands issued by the callback of the k-th firing. */
  type World<!T> = nat -> seq<Cmd<T>>

  predicate DueAfter<T>(c: Cmd<T>, now: int) {
    c.AddCmd? ==> now < c.clock + Abs(c.interval)
  }

  ghost predicate WorldDueAfter<T>(world: World<T>, now: int) {
    forall k: nat, i :: 0 <= i < |world(k)| ==> DueAfter(world(k)[i], now)
  }

  /** Some command concerns this timer: removes it or adds it anew. */
  ghost predicate Touches<T>(cs: seq<Cmd<T>>, id: T) {
    exists i :: 0 <= i < |cs| && cs[i].id == id
  }

  function Apply<T(==)>(s: State<T>, c: Cmd<T>): State<T> {
    match c
    case RemoveCmd(id) => Remove(s, id)
    case AddCmd(id, clock, interval) => Add(s, id, clock, interval)
  }

  function ApplyAll<T(==)>(s: State<T>, cs: seq<Cmd<T>>): State<T>
    decreases |cs|
  {
    if cs == [] then s else ApplyAll(Apply(s, cs[0]), cs[1..])
  }

  // ----- total lateness: why a drain ends

  function Late(due: int, now: int): nat {
    if due <= now then now - due + 1 else 0
  }

  function Lateness<T>(q: seq<Entry<T>>, now: int): nat {
    if q == [] then 0 else Late(q[0].due, now) + Lateness(q[1..], now)
  }

  lemma {:induction false} LatenessConcat<T>(a: seq<Entry<T>>, b: seq<Entry<T>>, now: int)
    ensures Lateness(a + b, now) == Lateness(a, now) + Lateness(b, now)
  {
    if a == [] {
      assert a + b == b;
    } else {
      assert (a + b)[1..] == a[1..] + b;
      LatenessConcat(a[1..], b, now);
    }
  }

  lemma LatenessInsert<T>(q: seq<Entry<T>>, e: Entry<T>, now: int)
    ensures Lateness(Insert(q, e), now) == Lateness(q, now) + Late(e.due, now)
  {
    var k := Slot(q, e);
    LatenessConcat(q[..k] + [e], q[k..], now);
    LatenessConcat(q[..k], [e], now);
    LatenessConcat(q[..k], q[k..], now);
    assert q == q[..k] + q[k..];
  }

  lemma {:induction false} LatenessDrop<T>(q: seq<Entry<T>>, id: T, now: int)
    ensures Lateness(Drop(q, id), now) <= Lateness(q, now)
  {
    if q != [] {
      LatenessDrop(q[1..], id, now);
    }
  }

  /** A firing at `now` takes from the lateness at any later time, too. */
  lemma FireLessLate<T>(s: State<T>, now: int, clock: int)
    requires Expired(s, now) && now <= clock
    ensures Lateness(Fire(s, now).q, clock) < Lateness(s.q, clock)
  {
    var e := s.q[0];
    if e.interval > 0 {
      RearmMovesForward(e.due, e.interval, now);
      LatenessInsert(s.q[1..], Rearmed(e, now, s.next), clock);
    }
  }

  lemma {:induction false} CommandsNoLater<T>(s: State<T>, cs: seq<Cmd<T>>, now: int)
    requires forall i :: 0 <= i < |cs| ==> DueAfter(cs[i], now)
    ensures Lateness(ApplyAll(s, cs).q, now) <= Lateness(s.q, now)
    decreases |cs|
  {
    if cs != [] {
      LatenessDrop(s.q, cs[0].id, now);
      if cs[0].AddCmd? {
        LatenessInsert(Drop(s.q, cs[0].id),
                       Added(s, cs[0].id, cs[0].clock, cs[0].interval), now);
      }
      assert DueAfter(cs[0], now);
      CommandsNoLater(Apply(s, cs[0]), cs[1..], now);
    }
  }

  // ----- the drain

  datatype Outcome<T> = Outcome(state: State<T>, log: seq<Entry<T>>)

  /** The state after the k-th firing and its callback. */
  function AfterFiring<T(==)>(s: State<T>, now: int, world: World<T>, k: nat): State<T>
    requires Expired(s, now)
  {
    ApplyAll(Fire(s, now), world(k))
  }

  lemma FiringLessLate<T>(s: State<T>, now: int, world: World<T>, k: nat)
    requires Expired(s, now) && WorldDueAfter(world, now)
    ensures Lateness(AfterFiring(s, now, world, k).q, now) < Lateness(s.q, now)
  {
    FireLessLate(s, now, now);
    CommandsNoLater(Fire(s, now), world(k), now);
  }

  /** Fire the earliest timer and run its callback until nothing is due. */
  ghost function Process<T>(s: State<T>, now: int, world: World<T>, k: nat): (o: Outcome<T>)
    requires WorldDueAfter(world, now)
    ensures !Expired(o.state, now)
    decreases Lateness(s.q, now)
  {
    if !Expired(s, now) then Outcome(s, [])
    else
      FiringLessLate(s, now, world, k);
      var rest := Process(AfterFiring(s, now, world, k), now, world, k + 1);
      Outcome(rest.state, [s.q[0]] + rest.log)
  }

  lemma ProcessUnfold<T>(s: State<T>, now: int, world: World<T>, k: nat)
    requires Expired(s, now) && WorldDueAfter(world, now)
    ensures Process(s, now, world, k).log == [s.q[0]] + Process(AfterFiring(s, now, world, k), now, world, k + 1).log
    ensures Process(s, now, world, k).state == Process(AfterFiring(s, now, world, k), now, world, k + 1).state
    ensures Lateness(AfterFiring(s, now, world, k).q, now) < Lateness(s.q, now)
  {
    FiringLessLate(s, now, world, k);
  }

  lemma ApplyWellFormed<T>(s: State<T>, c: Cmd<T>)
    requires WellFormed(s)
    ensures WellFormed(Apply(s, c))
  {
    match c
    case RemoveCmd(id) => RemoveWellFormed(s, id);
    case AddCmd(id, clock, interval) => AddWellFormed(s, id, clock, interval);
  }

  lemma {:induction false} ApplyAllWellFormed<T>(s: State<T>, cs: seq<Cmd<T>>)
    requires WellFormed(s)
    ensures WellFormed(ApplyAll(s, cs))
    decreases |cs|
  {
    if cs != [] {
      ApplyWellFormed(s, cs[0]);
      ApplyAllWellFormed(Apply(s, cs[0]), cs[1..]);
    }
  }

  lemma AfterFiringWellFormed<T>(s: State<T>, now: int, world: World<T>, k: nat)
    requires WellFormed(s) && Expired(s, now)
    ensures WellFormed(AfterFiring(s, now, world, k))
  {
    FireWellFormed(s, now);
    ApplyAllWellFormed(Fire(s, now), world(k));
  }

  // ----- firing order

  /** Everything pending comes after `b`, and so will anything inserted later for the same time. */
  ghost predicate AllAfter<T>(s: State<T>, b: Entry<T>) {
    b.born < s.next && forall i :: 0 <= i < |s.q| ==> Before(b, s.q[i])
  }

  lemma CommandStaysAfter<T>(s: State<T>, c: Cmd<T>, b: Entry<T>, now: int)
    requires AllAfter(s, b) && b.due <= now && DueAfter(c, now)
    ensures AllAfter(Apply(s, c), b)
  {
    var s' := Apply(s, c);
    forall i | 0 <= i < |s'.q| ensures Before(b, s'.q[i]) {
      match c
      case RemoveCmd(id) => DropMember(s.q, id, s'.q[i]);
      case AddCmd(id, clock, interval) => AddMember(s, id, clock, interval, s'.q[i]);
    }
  }

  lemma {:induction false} CommandsStayAfter<T>(s: State<T>, cs: seq<Cmd<T>>, b: Entry<T>, now: int)
    requires AllAfter(s, b) && b.due <= now
    requires forall i :: 0 <= i < |cs| ==> DueAfter(cs[i], now)
    ensures AllAfter(ApplyAll(s, cs), b)
    decreases |cs|
  {
    if cs != [] {
      CommandStaysAfter(s, cs[0], b, now);
      CommandsStayAfter(Apply(s, cs[0]), cs[1..], b, now);
    }
  }

  lemma FiringStaysAfter<T>(s: State<T>, now: int, world: World<T>, k: nat, b: Entry<T>)
    requires WellFormed(s) && Expired(s, now) && WorldDueAfter(world, now)
    requires b == s.q[0] || AllAfter(s, b)
    ensures AllAfter(AfterFiring(s, now, world, k), b)
  {
    var e, s1 := s.q[0], Fire(s, now);
    if e.interval > 0 {
      RearmMovesForward(e.due, e.interval, now);
    }
    forall i | 0 <= i < |s1.q| ensures Before(b, s1.q[i]) {
      FireMember(s, now, s1.q[i]);
    }
    CommandsStayAfter(s1, world(k), b, now);
  }

  lemma {:induction false} FiringsAfter<T>(s: State<T>, now: int, world: World<T>, k: nat, b: Entry<T>)
    requires WellFormed(s) && WorldDueAfter(world, now) && AllAfter(s, b)
    ensures forall i :: 0 <= i < |Process(s, now, world, k).log| ==> Before(b, Process(s, now, world, k).log[i])
    decreases Lateness(s.q, now)
  {
    if Expired(s, now) {
      FiringLessLate(s, now, world, k);
      AfterFiringWellFormed(s, now, world, k);
      FiringStaysAfter(s, now, world, k, b);
      FiringsAfter(AfterFiring(s, now, world, k), now, world, k + 1, b);
    }
  }

  /** Firings of one drain come in strictly increasing (due time, insertion) order: by due time, ties in
      insertion order. All of them were due. */
  lemma {:induction false} FiringsInOrder<T>(s: State<T>, now: int, world: World<T>, k: nat)
    requires WellFormed(s) && WorldDueAfter(world, now)
    ensures Ordered(Process(s, now, world, k).log)
    ensures forall i :: 0 <= i < |Process(s, now, world, k).log| ==> Process(s, now, world, k).log[i].due <= now
    ensures WellFormed(Process(s, now, world, k).state)
    decreases Lateness(s.q, now)
  {
    if Expired(s, now) {
      FiringLessLate(s, now, world, k);
      AfterFiringWellFormed(s, now, world, k);
      FiringStaysAfter(s, now, world, k, s.q[0]);
      FiringsAfter(AfterFiring(s, now, world, k), now, world, k + 1, s.q[0]);
      FiringsInOrder(AfterFiring(s, now, world, k), now, world, k + 1);
    }
  }

  // ----- how often a timer fires in one drain

  /** What is pending after some commands was pending before or is not yet due. */
  lemma {:induction false} CommandsOrigin<T>(s: State<T>, cs: seq<Cmd<T>>, now: int, x: Entry<T>)
    requires forall i :: 0 <= i < |cs| ==> DueAfter(cs[i], now)
    requires x in ApplyAll(s, cs).q
    ensures x in s.q || now < x.due
    decreases |cs|
  {
    if cs != [] {
      CommandsOrigin(Apply(s, cs[0]), cs[1..], now, x);
      match cs[0]
      case RemoveCmd(id) => DropMember(s.q, id, x);
      case AddCmd(id, clock, interval) => AddMember(s, id, clock, interval, x);
    }
  }

  /** No pending timer of this id is due. */
  ghost predicate NotDue<T>(s: State<T>, now: int, id: T) {
    forall i :: 0 <= i < |s.q| && s.q[i].id == id ==> now < s.q[i].due
  }

  lemma FiringKeepsNotDue<T>(s: State<T>, now: int, world: World<T>, k: nat, id: T)
    requires WellFormed(s) && WorldDueAfter(world, now) && Expired(s, now) && NotDue(s, now, id)
    ensures NotDue(AfterFiring(s, now, world, k), now, id)
  {
    var s' := AfterFiring(s, now, world, k);
    forall i | 0 <= i < |s'.q| && s'.q[i].id == id ensures now < s'.q[i].due {
      CommandsOrigin(Fire(s, now), world(k), now, s'.q[i]);
      FireMember(s, now, s'.q[i]);
    }
  }

  lemma {:induction false} NotDueNotFired<T>(s: State<T>, now: int, world: World<T>, k: nat, id: T)
    requires WellFormed(s) && WorldDueAfter(world, now) && NotDue(s, now, id)
    ensures forall i :: 0 <= i < |Process(s, now, world, k).log| ==> Process(s, now, world, k).log[i].id != id
    decreases Lateness(s.q, now)
  {
    if Expired(s, now) {
      FiringKeepsNotDue(s, now, world, k, id);
      FiringLessLate(s, now, world, k);
      AfterFiringWellFormed(s, now, world, k);
      NotDueNotFired(AfterFiring(s, now, world, k), now, world, k + 1, id);
    }
  }

  /** Once `e` has fired or been taken away, its id is not due again in this drain. */
  lemma GoneMeansNotDue<T>(s: State<T>, now: int, world: World<T>, k: nat, e: Entry<T>)
    requires WellFormed(s) && WorldDueAfter(world, now) && Expired(s, now) && e in s.q
    requires e.interval <= 0 || now < Rearm(e.due, e.interval, now)
    requires e == s.q[0] || e !in AfterFiring(s, now, world, k).q
    ensures NotDue(AfterFiring(s, now, world, k), now, e.id)
  {
    var s' := AfterFiring(s, now, world, k);
    forall i | 0 <= i < |s'.q| && s'.q[i].id == e.id ensures now < s'.q[i].due {
      CommandsOrigin(Fire(s, now), world(k), now, s'.q[i]);
      FireMember(s, now, s'.q[i]);
      FireMember(s, now, e);
    }
  }

  /** A timer that does not come due again fires at most once in one drain. */
  lemma {:induction false} FiresAtMostOnce<T>(s: State<T>, now: int, world: World<T>, k: nat, e: Entry<T>)
    requires WellFormed(s) && WorldDueAfter(world, now) && e in s.q
    requires e.interval <= 0 || now < Rearm(e.due, e.interval, now)
    ensures var log := Process(s, now, world, k).log;
            forall i :: 0 <= i < |log| && log[i].id == e.id ==> log[i] == e
    decreases Lateness(s.q, now)
  {
    if Expired(s, now) {
      var s' := AfterFiring(s, now, world, k);
      ProcessUnfold(s, now, world, k);
      AfterFiringWellFormed(s, now, world, k);
      if e in s'.q && e != s.q[0] {
        FiresAtMostOnce(s', now, world, k + 1, e);
        FireMember(s, now, e);
        assert s.q[0].id != e.id;
      } else {
        GoneMeansNotDue(s, now, world, k, e);
        NotDueNotFired(s', now, world, k + 1, e.id);
        FireMember(s, now, e);
      }
    }
  }

  // ----- which timers fire

  lemma TouchesSplit<T>(cs: seq<Cmd<T>>, id: T)
    requires cs != []
    ensures Touches(cs, id) <==> cs[0].id == id || Touches(cs[1..], id)
  {
    if Touches(cs[1..], id) {
      var i :| 0 <= i < |cs[1..]| && cs[1..][i].id == id;
      assert cs[1 + i].id == id;
    }
    if Touches(cs, id) {
      var i :| 0 <= i < |cs| && cs[i].id == id;
      if i > 0 {
        assert cs[1..][i - 1].id == id;
      }
    }
  }

  /** A timer that is due stays pending through commands that do not touch it, and through no others. */
  lemma {:induction false} CommandsKeep<T>(s: State<T>, cs: seq<Cmd<T>>, now: int, x: Entry<T>)
    requires (forall i :: 0 <= i < |cs| ==> DueAfter(cs[i], now)) && x.due <= now
    ensures x in ApplyAll(s, cs).q <==> x in s.q && !Touches(cs, x.id)
    ensures s.next <= ApplyAll(s, cs).next
    decreases |cs|
  {
    if cs != [] {
      CommandsKeep(Apply(s, cs[0]), cs[1..], now, x);
      TouchesSplit(cs, x.id);
      match cs[0]
      case RemoveCmd(id) => DropMember(s.q, id, x);
      case AddCmd(id, clock, interval) => AddMember(s, id, clock, interval, x);
    }
  }

  /** Only what is pending now, or inserted later, can fire. */
  lemma {:induction false} FiringsOrigin<T>(s: State<T>, now: int, world: World<T>, k: nat, x: Entry<T>)
    requires WellFormed(s) && WorldDueAfter(world, now) && x.due <= now
    requires x in Process(s, now, world, k).log
    ensures x in s.q || s.next <= x.born
    decreases Lateness(s.q, now)
  {
    if Expired(s, now) && x != s.q[0] {
      var s1, s' := Fire(s, now), AfterFiring(s, now, world, k);
      FiringLessLate(s, now, world, k);
      AfterFiringWellFormed(s, now, world, k);
      CommandsKeep(s1, world(k), now, x);
      FiringsOrigin(s', now, world, k + 1, x);
      FireMember(s, now, x);
    }
  }

  /** Some callback that ran before the turn of `e` removed its timer or added it anew. */
  ghost predicate TouchedEarlier<T>(log: seq<Entry<T>>, world: World<T>, k: nat, e: Entry<T>) {
    exists i :: 0 <= i < |log| && Before(log[i], e) && Touches(world(k + i), e.id)
  }

  lemma TouchedEarlierShift<T>(h: Entry<T>, log: seq<Entry<T>>, world: World<T>, k: nat, e: Entry<T>)
    ensures TouchedEarlier([h] + log, world, k, e) <==>
              (Before(h, e) && Touches(world(k), e.id)) || TouchedEarlier(log, world, k + 1, e)
  {
    var log' := [h] + log;
    assert log'[0] == h && k + 0 == k;
    if TouchedEarlier(log, world, k + 1, e) {
      var i :| 0 <= i < |log| && Before(log[i], e) && Touches(world(k + 1 + i), e.id);
      assert log'[i + 1] == log[i] && k + (i + 1) == k + 1 + i;
    }
    if TouchedEarlier(log', world, k, e) {
      var i :| 0 <= i < |log'| && Before(log'[i], e) && Touches(world(k + i), e.id);
      if i > 0 {
        assert log[i - 1] == log'[i] && k + 1 + (i - 1) == k + i;
      }
    }
  }

  /** Fires before anything else, so nothing can have touched it. */
  lemma HeadNotTouched<T>(h: Entry<T>, rest: seq<Entry<T>>, world: World<T>, k: nat)
    requires Ordered([h] + rest)
    ensures !TouchedEarlier([h] + rest, world, k, h)
  {
    forall i | 0 <= i < |[h] + rest| ensures !Before(([h] + rest)[i], h) {
      assert i == 0 || Before(([h] + rest)[0], ([h] + rest)[i]);
    }
  }

  /** After a firing and its callback, a due timer is still pending unless it fired or was touched. */
  lemma StillPending<T>(s: State<T>, now: int, world: World<T>, k: nat, e: Entry<T>)
    requires WellFormed(s) && WorldDueAfter(world, now) && Expired(s, now)
    requires e in s.q && e.due <= now && e != s.q[0]
    ensures Before(s.q[0], e) && e.born < s.next <= AfterFiring(s, now, world, k).next
    ensures e in AfterFiring(s, now, world, k).q <==> !Touches(world(k), e.id)
  {
    FireMember(s, now, e);
    CommandsKeep(Fire(s, now), world(k), now, e);
  }

  /** A due timer fires exactly when no earlier callback removed it or added it anew. */
  lemma {:induction false} FiresUnlessTouched<T>(s: State<T>, now: int, world: World<T>, k: nat, e: Entry<T>)
    requires WellFormed(s) && WorldDueAfter(world, now)
    requires e in s.q && e.due <= now
    ensures e in Process(s, now, world, k).log <==> !TouchedEarlier(Process(s, now, world, k).log, world, k, e)
    decreases Lateness(s.q, now)
  {
    var s' := AfterFiring(s, now, world, k);
    var rest := Process(s', now, world, k + 1).log;
    ProcessUnfold(s, now, world, k);
    if s.q[0] == e {
      FiringsInOrder(s, now, world, k);
      HeadNotTouched(e, rest, world, k);
    } else {
      TouchedEarlierShift(s.q[0], rest, world, k, e);
      StillPending(s, now, world, k, e);
      AfterFiringWellFormed(s, now, world, k);
      if e in s'.q {
        FiresUnlessTouched(s', now, world, k + 1, e);
      } else if e in rest {
        FiringsOrigin(s', now, world, k + 1, e);
      }
    }
  }

  /** A due timer no callback touches, whatever they do to others, fires exactly once in the drain if and only if
      it is one-shot, is not late by a whole interval, or is re-armed within one 2^32 epoch. */
  lemma {:induction false} FiresOnceIff<T>(s: State<T>, now: int, world: World<T>, k: nat, e: Entry<T>)
    requires WellFormed(s) && WorldDueAfter(world, now)
    requires e in s.q && e.due <= now && now - e.due < HALF && e.interval < HALF
    requires forall n: nat :: !Touches(world(n), e.id)
    ensures var log := Process(s, now, world, k).log;
            && e in log
            && ((forall i :: 0 <= i < |log| && log[i].id == e.id ==> log[i] == e) <==>
                e.interval <= 0 || now < e.due + e.interval || SameEpoch(e.due + e.interval, now + 1))
    decreases Lateness(s.q, now)
  {
    FiresUnlessTouched(s, now, world, k, e);
    if e.interval > 0 {
      RearmIsMaxIffSameEpoch(e.due, e.interval, now);
    }
    if e.interval <= 0 || now < Rearm(e.due, e.interval, now) {
      FiresAtMostOnce(s, now, world, k, e);
    } else {
      FiresAgain(s, now, world, k, e);
    }
  }

  /** The drain fires another timer under the id of `e`. */
  ghost predicate OtherFiring<T>(log: seq<Entry<T>>, e: Entry<T>) {
    exists i :: 0 <= i < |log| && log[i].id == e.id && log[i] != e
  }

  lemma OtherFiringLater<T>(h: Entry<T>, log: seq<Entry<T>>, e: Entry<T>)
    requires OtherFiring(log, e)
    ensures OtherFiring([h] + log, e)
  {
    var i :| 0 <= i < |log| && log[i].id == e.id && log[i] != e;
    assert ([h] + log)[i + 1] == log[i];
  }

  /** Re-armed for a time already past, the timer is pending again and due. */
  lemma HeadDueAgain<T>(s: State<T>, now: int, world: World<T>, k: nat)
    requires WellFormed(s) && WorldDueAfter(world, now) && Expired(s, now)
    requires s.q[0].interval > 0 && Rearm(s.q[0].due, s.q[0].interval, now) <= now && !Touches(world(k), s.q[0].id)
    ensures Rearmed(s.q[0], now, s.next) in AfterFiring(s, now, world, k).q
    ensures Rearmed(s.q[0], now, s.next) != s.q[0]
  {
    var e := s.q[0];
    FireMember(s, now, Rearmed(e, now, s.next));
    CommandsKeep(Fire(s, now), world(k), now, Rearmed(e, now, s.next));
    RearmMovesForward(e.due, e.interval, now);
  }

  lemma {:induction false} FiresAgain<T>(s: State<T>, now: int, world: World<T>, k: nat, e: Entry<T>)
    requires WellFormed(s) && WorldDueAfter(world, now)
    requires e in s.q && e.due <= now && e.interval > 0 && Rearm(e.due, e.interval, now) <= now
    requires forall n: nat :: !Touches(world(n), e.id)
    ensures OtherFiring(Process(s, now, world, k).log, e)
    decreases Lateness(s.q, now)
  {
    var s' := AfterFiring(s, now, world, k);
    var rest := Process(s', now, world, k + 1).log;
    ProcessUnfold(s, now, world, k);
    AfterFiringWellFormed(s, now, world, k);
    if s.q[0] == e {
      var again := Rearmed(e, now, s.next);
      HeadDueAgain(s, now, world, k);
      FiresUnlessTouched(s', now, world, k + 1, again);
      assert again in rest;
    } else {
      StillPending(s, now, world, k, e);
      FiresAgain(s', now, world, k + 1, e);
    }
    OtherFiringLater(s.q[0], rest, e);
  }

  // ----- the window inside which 32-bit comparisons are right

  /** Due times, and where re-arming at `now` can put them, lie in a window shorter than 2^31. */
  ghost predicate Span<T>(q: seq<Entry<T>>, now: int, lo: int, hi: int) {
    && hi - lo < HALF
    && lo <= now <= hi
    && forall i :: 0 <= i < |q| ==> lo <= q[i].due <= hi && now + q[i].interval <= hi
  }

  ghost predicate CmdFits<T>(c: Cmd<T>, now: int, hi: int) {
    c.AddCmd? ==> now < c.clock + Abs(c.interval) <= hi && now + c.interval <= hi
  }

  lemma SpanFire<T>(s: State<T>, now: int, lo: int, hi: int)
    requires WellFormed(s) && Expired(s, now) && Span(s.q, now, lo, hi)
    ensures Span(s.q[1..], now, lo, hi) && Span(Fire(s, now).q, now, lo, hi)
  {
    var e, s' := s.q[0], Fire(s, now);
    if e.interval > 0 {
      RearmMovesForward(e.due, e.interval, now);
    }
    forall i | 0 <= i < |s'.q| ensures lo <= s'.q[i].due <= hi && now + s'.q[i].interval <= hi {
      FireMember(s, now, s'.q[i]);
    }
  }

  lemma SpanDrop<T>(q: seq<Entry<T>>, id: T, now: int, lo: int, hi: int)
    requires Span(q, now, lo, hi)
    ensures Span(Drop(q, id), now, lo, hi)
  {
    forall i | 0 <= i < |Drop(q, id)| ensures Drop(q, id)[i] in q {
      DropMember(q, id, Drop(q, id)[i]);
    }
  }

  lemma SpanApply<T>(s: State<T>, c: Cmd<T>, now: int, lo: int, hi: int)
    requires Span(s.q, now, lo, hi) && CmdFits(c, now, hi)
    ensures Span(Apply(s, c).q, now, lo, hi)
  {
    SpanDrop(s.q, c.id, now, lo, hi);
  }
}
