/** The timer queue over unbounded time: a priority queue ordered by due time, ties in insertion order. */
module TimerSpec {
  import opened WrapTime

  /** A pending timer. `born` counts insertions, so it tells ties apart. */
  datatype Entry<T> = Entry(id: T, due: int, interval: int, born: nat)

  datatype State<T> = State(q: seq<Entry<T>>, next: nat)

  predicate Before<T>(a: Entry<T>, b: Entry<T>) {
    a.due < b.due || (a.due == b.due && a.born < b.born)
  }

  ghost predicate Ordered<T>(q: seq<Entry<T>>) {
    forall i, j :: 0 <= i < j < |q| ==> Before(q[i], q[j])
  }

  ghost predicate DistinctIds<T>(q: seq<Entry<T>>) {
    forall i, j :: 0 <= i < j < |q| ==> q[i].id != q[j].id
  }

  ghost predicate WellFormed<T>(s: State<T>) {
    && Ordered(s.q)
    && DistinctIds(s.q)
    && forall i :: 0 <= i < |s.q| ==> s.q[i].born < s.next
  }

  // ----- insertion and removal

  function Slot<T>(q: seq<Entry<T>>, e: Entry<T>): (k: nat)
    ensures k <= |q|
    ensures forall i :: 0 <= i < k ==> !Before(e, q[i])
    ensures k < |q| ==> Before(e, q[k])
  {
    if q == [] || Before(e, q[0]) then 0 else 1 + Slot(q[1..], e)
  }

  function Insert<T>(q: seq<Entry<T>>, e: Entry<T>): seq<Entry<T>> {
    q[..Slot(q, e)] + [e] + q[Slot(q, e)..]
  }

  function Drop<T(==)>(q: seq<Entry<T>>, id: T): seq<Entry<T>> {
    if q == [] then []
    else if q[0].id == id then Drop(q[1..], id)
    else [q[0]] + Drop(q[1..], id)
  }

  lemma {:induction false} DropMember<T>(q: seq<Entry<T>>, id: T, e: Entry<T>)
    ensures e in Drop(q, id) <==> e in q && e.id != id
  {
    if q != [] {
      DropMember(q[1..], id, e);
      assert q == [q[0]] + q[1..];
    }
  }

  lemma {:induction false} DropKeepsOrder<T>(q: seq<Entry<T>>, id: T)
    requires Ordered(q) && DistinctIds(q)
    ensures Ordered(Drop(q, id)) && DistinctIds(Drop(q, id))
  {
    if q != [] {
      DropKeepsOrder(q[1..], id);
      var rest := Drop(q[1..], id);
      forall i | 0 <= i < |rest| ensures Before(q[0], rest[i]) && q[0].id != rest[i].id {
        DropMember(q[1..], id, rest[i]);
        var j :| 0 <= j < |q[1..]| && q[1..][j] == rest[i];
        assert q[1 + j] == rest[i];
      }
    }
  }

  lemma DropAbsent<T>(q: seq<Entry<T>>, id: T)
    requires forall i :: 0 <= i < |q| ==> q[i].id != id
    ensures Drop(q, id) == q
  {
  }

  /** Removing the head's id from a queue of distinct ids removes just the head. */
  lemma DropHead<T>(q: seq<Entry<T>>)
    requires q != [] && DistinctIds(q)
    ensures Drop(q, q[0].id) == q[1..]
  {
    DropAbsent(q[1..], q[0].id);
  }

  lemma InsertMember<T>(q: seq<Entry<T>>, e: Entry<T>, x: Entry<T>)
    ensures x in Insert(q, e) <==> x in q || x == e
  {
    var k := Slot(q, e);
    assert q == q[..k] + q[k..];
  }

  lemma InsertKeepsWellFormed<T>(s: State<T>, e: Entry<T>)
    requires WellFormed(s) && e.born == s.next
    requires forall i :: 0 <= i < |s.q| ==> s.q[i].id != e.id
    ensures WellFormed(State(Insert(s.q, e), s.next + 1))
  {
    var q, k := s.q, Slot(s.q, e);
    var q' := Insert(q, e);
    assert forall i :: 0 <= i < k ==> q'[i] == q[i] && Before(q[i], e);
    assert forall i :: k < i < |q'| ==> q'[i] == q[i - 1];
    forall i | k <= i < |q| ensures Before(e, q[i]) {
      assert i == k || Before(q[k], q[i]);
    }
  }

  // ----- the operations

  function Added<T>(s: State<T>, id: T, clock: int, interval: int): Entry<T> {
    Entry(id, clock + Abs(interval), interval, s.next)
  }

  /** fftimerqueue_add: the timer is due |interval| after `clock`, replacing an earlier one of the same id. */
  function Add<T(==)>(s: State<T>, id: T, clock: int, interval: int): State<T> {
    State(Insert(Drop(s.q, id), Added(s, id, clock, interval)), s.next + 1)
  }

  function Remove<T(==)>(s: State<T>, id: T): State<T> {
    State(Drop(s.q, id), s.next)
  }

  predicate Expired<T>(s: State<T>, now: int) {
    s.q != [] && s.q[0].due <= now
  }

  /** The due time a periodic timer gets: the plain unsigned maximum of two 32-bit readings. */
  function Rearm(due: int, interval: int, now: int): int {
    if Key(due + interval) > Key(now + 1) then due + interval else now + 1
  }

  function Rearmed<T>(e: Entry<T>, now: int, born: nat): Entry<T> {
    Entry(e.id, Rearm(e.due, e.interval, now), e.interval, born)
  }

  /** Take the earliest timer; a periodic one goes back with its next due time. */
  function Fire<T>(s: State<T>, now: int): State<T>
    requires Expired(s, now)
  {
    var e := s.q[0];
    if e.interval > 0 then State(Insert(s.q[1..], Rearmed(e, now, s.next)), s.next + 1)
    else State(s.q[1..], s.next)
  }

  lemma RemoveWellFormed<T>(s: State<T>, id: T)
    requires WellFormed(s)
    ensures WellFormed(Remove(s, id))
    ensures forall i :: 0 <= i < |Remove(s, id).q| ==> Remove(s, id).q[i].id != id
  {
    DropKeepsOrder(s.q, id);
    var r := Drop(s.q, id);
    forall i | 0 <= i < |r| ensures r[i].born < s.next && r[i].id != id {
      DropMember(s.q, id, r[i]);
      assert r[i] in s.q;
    }
  }

  lemma AddWellFormed<T>(s: State<T>, id: T, clock: int, interval: int)
    requires WellFormed(s)
    ensures WellFormed(Add(s, id, clock, interval))
  {
    RemoveWellFormed(s, id);
    InsertKeepsWellFormed(Remove(s, id), Added(s, id, clock, interval));
  }

  lemma AddMember<T>(s: State<T>, id: T, clock: int, interval: int, x: Entry<T>)
    ensures x in Add(s, id, clock, interval).q <==> (x in s.q && x.id != id) || x == Added(s, id, clock, interval)
  {
    DropMember(s.q, id, x);
    InsertMember(Drop(s.q, id), Added(s, id, clock, interval), x);
  }

  lemma FireWellFormed<T>(s: State<T>, now: int)
    requires WellFormed(s) && Expired(s, now)
    ensures WellFormed(Fire(s, now))
  {
    var rest := State(s.q[1..], s.next);
    assert WellFormed(rest);
    if s.q[0].interval > 0 {
      InsertKeepsWellFormed(rest, Rearmed(s.q[0], now, s.next));
    }
  }

  lemma FireMember<T>(s: State<T>, now: int, x: Entry<T>)
    requires WellFormed(s) && Expired(s, now)
    ensures x in Fire(s, now).q <==>
              (x in s.q && x != s.q[0]) || (s.q[0].interval > 0 && x == Rearmed(s.q[0], now, s.next))
    ensures x in s.q && x != s.q[0] ==> x.id != s.q[0].id && Before(s.q[0], x)
  {
    assert s.q == [s.q[0]] + s.q[1..];
    assert s.q[0] !in s.q[1..];
    if s.q[0].interval > 0 {
      InsertMember(s.q[1..], Rearmed(s.q[0], now, s.next), x);
    }
  }

  // ----- the re-arm rule

  /** A re-armed timer moves strictly forward and no further than one interval past now. */
  lemma RearmMovesForward(due: int, interval: int, now: int)
    requires due <= now && interval > 0
    ensures due < Rearm(due, interval, now) <= now + interval
    ensures Rearm(due, interval, now) in {due + interval, now + 1}
  {
  }

  /** The 32-bit computation of the new key. */
  lemma RearmKey(due: int, interval: int, now: int)
    ensures Max(Plus(Key(due), interval), Plus(Key(now), 1)) == Key(Rearm(due, interval, now))
  {
    KeyPlus(due, interval);
    KeyPlus(now, 1);
  }

  /** The code's unsigned maximum is the later of the two candidates exactly when both lie in one
      2^32 epoch; across the boundary it is the earlier one. */
  lemma RearmIsMaxIffSameEpoch(due: int, interval: int, now: int)
    requires due <= now && interval > 0 && now - due < HALF && interval < HALF
    ensures Rearm(due, interval, now) == Max(due + interval, now + 1) <==> SameEpoch(due + interval, now + 1)
    ensures !SameEpoch(due + interval, now + 1) ==>
              Rearm(due, interval, now) == if due + interval < now + 1 then due + interval else now + 1
  {
    UnsignedOrder(due + interval, now + 1);
  }

  /** The two ways the rule goes wrong near the wrap: a late timer stays late, and a punctual one is
      re-armed for the next millisecond instead of its interval. */
  lemma RearmAcrossTheWrap()
    ensures Rearm(WORD - 10, 5, WORD - 1) == WORD - 5 <= WORD - 1
    ensures Rearm(WORD - 3, 10, WORD - 3) == WORD - 2 < WORD - 3 + 10
  {
    assert Key(WORD - 5) == WORD - 5;
  }
}
