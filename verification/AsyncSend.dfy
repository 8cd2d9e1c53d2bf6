/** Asynchronous send on Windows: a blocked send hands the system one byte to be signalled about. */
module AsyncSend {
  import opened Basics
  import opened IoVectors

  /** What the system answers. The counts of a partial send are clipped to what was offered. */
  datatype SendAnswer = Sent(n: nat) | WouldBlock | SendFailed(code: int)
  datatype WriteAnswer = Written | WritePending | WriteFailed(code: int)
  datatype PollAnswer = Incomplete | PollFailed(code: int) | Finished

  /** The answers the system gives during one call. */
  datatype Answers = Answers(send: SendAnswer, write: WriteAnswer, poll: PollAnswer)

  /** Return value of the async send functions: a count, or -1 with the pending or another error. */
  datatype Reply = Ok(n: nat) | InProgress | Error(code: int)

  /** The reply the system's answers lead to, with `pending` bytes under way if a task is active, and else with
      `offered` bytes presented to the system. */
  function ReplyFor(active: bool, pending: nat, offered: nat, a: Answers): Reply {
    if active then
      match a.poll
      case Incomplete => InProgress
      case PollFailed(code) => Error(code)
      case Finished => Ok(pending)
    else
      match a.send
      case Sent(n) => Ok(Min(n, offered))
      case SendFailed(code) => Error(code)
      case WouldBlock => if a.write.WriteFailed? then Error(a.write.code) else InProgress
  }

  /** As many bytes as the system is offered in one send. */
  const MAX_SEND: nat := 0xffff_ffff

  class Task {
    var active: bool
    var buf: seq<Byte>

    constructor ()
      ensures !active
    {
      active, buf := false, [];
    }
  }

  /** The system's side of a socket: bytes taken for sending, and those of the unfinished overlapped write. */
  class Socket {
    ghost var taken: seq<Byte>
    ghost var inFlight: seq<Byte>

    constructor ()
      ensures taken == [] && inFlight == []
    {
      taken, inFlight := [], [];
    }

    /** Everything the system has accepted. */
    ghost function Stream(): seq<Byte>
      reads this
    {
      taken + inFlight
    }

    method Send(bytes: seq<Byte>, a: SendAnswer) returns (n: nat)
      modifies this
      ensures inFlight == old(inFlight)
      ensures n == if a.Sent? then Min(a.n, |bytes|) else 0
      ensures taken == old(taken) + bytes[..n]
    {
      n := if a.Sent? then Min(a.n, |bytes|) else 0;
      taken := taken + bytes[..n];
    }

    method WriteFile(bytes: seq<Byte>, a: WriteAnswer)
      requires inFlight == []
      modifies this
      ensures taken == old(taken)
      ensures inFlight == if a.WriteFailed? then [] else bytes
    {
      inFlight := if a.WriteFailed? then [] else bytes;
    }

    /** `pending` is the system's record of how much the overlapped write was given. */
    method GetOverlappedResult(pending: seq<Byte>, a: PollAnswer) returns (sent: nat)
      requires pending == inFlight
      modifies this
      ensures a.Incomplete? ==> taken == old(taken) && inFlight == old(inFlight)
      ensures a.PollFailed? ==> taken == old(taken) && inFlight == []
      ensures a.Finished? ==> taken == old(taken) + old(inFlight) && inFlight == [] && sent == |old(inFlight)|
    {
      sent := |pending|;
      if a.Finished? {
        taken := taken + inFlight;
      }
      if !a.Incomplete? {
        inFlight := [];
      }
    }
  }

  /** At most the first byte. */
  function First(bytes: seq<Byte>): seq<Byte> {
    bytes[..Min(1, |bytes|)]
  }

  /** An active task is what the system is still writing; an inactive one leaves nothing under way. */
  ghost predicate Tied(task: Task, sk: Socket)
    reads task, sk
  {
    sk.inFlight == if task.active then task.buf else []
  }

  /** The part shared by both functions when a task is active. */
  method Poll(sk: Socket, task: Task, a: PollAnswer) returns (r: Reply)
    requires Tied(task, sk) && task.active
    modifies sk, task
    ensures Tied(task, sk) && task.buf == old(task.buf)
    ensures match a
            case Incomplete => r == InProgress && task.active && sk.taken == old(sk.taken)
            case PollFailed(code) => r == Error(code) && !task.active && sk.taken == old(sk.taken)
            case Finished => r == Ok(|task.buf|) && !task.active && sk.taken == old(sk.taken) + task.buf
  {
    var sent := sk.GetOverlappedResult(task.buf, a);
    match a
    case Incomplete => r := InProgress;
    case PollFailed(code) => task.active := false; r := Error(code);
    case Finished => task.active := false; r := Ok(sent);
  }

  /** The part shared by both functions after the send would block: give the system at most one byte. */
  method Begin(sk: Socket, task: Task, first: seq<Byte>, a: WriteAnswer) returns (r: Reply)
    requires Tied(task, sk) && !task.active
    modifies sk, task
    ensures Tied(task, sk) && sk.taken == old(sk.taken)
    ensures if a.WriteFailed? then r == Error(a.code) && !task.active else r == InProgress && task.active && task.buf == first
  {
    task.buf := first;
    sk.WriteFile(task.buf, a);
    if a.WriteFailed? {
      r := Error(a.code);
    } else {
      task.active := true;
      r := InProgress;
    }
  }

  /** Both sides at one moment. */
  datatype View = View(active: bool, buf: seq<Byte>, taken: seq<Byte>)

  ghost function Look(sk: Socket, task: Task): View
    reads sk, task
  {
    View(task.active, task.buf, sk.taken)
  }

  /** What a call does, from view `v` to view `v'`. A call on an active task only looks at that task: the
      bytes it is given now play no part. */
  ghost predicate CallOk(v: View, v': View, bytes: seq<Byte>, r: Reply) {
    match r
    case Ok(n) =>
      && !v'.active
      && if v.active then n == |v.buf| && v'.taken == v.taken + v.buf
         else n <= |bytes| && v'.taken == v.taken + bytes[..n]
    case InProgress =>
      v'.active && v'.taken == v.taken && v'.buf == if v.active then v.buf else First(bytes)
    case Error(_) =>
      !v'.active && v'.taken == v.taken
  }

  /** ffsock_send_async */
  method SendAsync(sk: Socket, bytes: seq<Byte>, task: Task, a: Answers) returns (r: Reply)
    requires Tied(task, sk)
    modifies sk, task
    ensures Tied(task, sk) && CallOk(old(Look(sk, task)), Look(sk, task), bytes, r)
    ensures r == ReplyFor(old(task.active), |old(task.buf)|, Min(|bytes|, MAX_SEND), a)
  {
    if task.active {
      r := Poll(sk, task, a.poll);
      return;
    }
    var offered := if |bytes| > 0xffff_ffff then bytes[..0xffff_ffff] else bytes;
    var n := sk.Send(offered, a.send);
    if !a.send.WouldBlock? {
      r := if a.send.Sent? then Ok(n) else Error(a.send.code);
      assert offered[..n] == bytes[..n];
      return;
    }
    assert First(offered) == First(bytes);
    r := Begin(sk, task, First(offered), a.write);
  }

  /** The first bytes come from the first vector that has any. */
  method FirstOf(iov: array<IoVec>, iovN: nat) returns (first: seq<Byte>)
    requires iovN <= iov.Length && AllValid(iov[..iovN])
    ensures first == First(Flat(iov[..iovN]))
  {
    first := [];
    ghost var vs := iov[..iovN];
    var i := 0;
    while i != iovN
      invariant 0 <= i <= iovN && first == []
      invariant Flat(vs) == Flat(vs[i..])
      decreases iovN - i
    {
      FlatFrom(vs, i);
      if iov[i].len != 0 {
        first := iov[i].mem[iov[i].base..iov[i].base + Min(iov[i].len, 1)];
        assert first == First(iov[i].Bytes() + Flat(vs[i + 1..]));
        break;
      }
      i := i + 1;
    }
  }

  /** ffsock_sendv_async. With nothing but empty vectors a blocked send counts as having sent nothing. */
  method SendvAsync(sk: Socket, iov: array<IoVec>, iovN: nat, task: Task, a: Answers, ghost bytes: seq<Byte>)
    returns (r: Reply)
    requires Tied(task, sk) && iovN <= iov.Length && AllValid(iov[..iovN]) && bytes == Flat(iov[..iovN])
    modifies sk, task
    ensures Tied(task, sk) && CallOk(old(Look(sk, task)), Look(sk, task), bytes, r)
    ensures r == if old(!task.active) && bytes == [] && a.send.WouldBlock? then Ok(0)
                 else ReplyFor(old(task.active), |old(task.buf)|, |bytes|, a)
  {
    if task.active {
      r := Poll(sk, task, a.poll);
      return;
    }
    var all := Gather(iov, iovN);
    var n := sk.Send(all, a.send);
    if !a.send.WouldBlock? {
      r := if a.send.Sent? then Ok(n) else Error(a.send.code);
      return;
    }
    var first := FirstOf(iov, iovN);
    if first == [] {
      r := Ok(0);
      return;
    }
    r := Begin(sk, task, first, a.write);
  }

  // ----- callers that present the unconfirmed remainder again

  /** After `pos` confirmed bytes the system holds exactly those and, while a task is active, one byte more. */
  ghost predicate InStep(v: View, data: seq<Byte>, pos: nat)
    requires pos <= |data|
  {
    v.taken == data[..pos] && (v.active ==> v.buf == First(data[pos..]))
  }

  /** One call keeps caller and system in step. */
  lemma CallKeepsStep(v: View, v': View, data: seq<Byte>, pos: nat, r: Reply)
    requires pos <= |data| && InStep(v, data, pos) && CallOk(v, v', data[pos..], r)
    ensures r.Ok? ==> pos + r.n <= |data| && InStep(v', data, pos + r.n)
    ensures !r.Ok? ==> InStep(v', data, pos)
  {
    if r.Ok? {
      assert data[..pos + r.n] == data[..pos] + data[pos..][..r.n];
    }
  }

  // ----- how far the answers bring such a caller

  /** How many bytes are unconfirmed, and whether a task is active. */
  datatype Course = Course(left: nat, active: bool)

  function ReplyAt(p: Course, a: Answers, vectors: bool): Reply {
    if vectors && !p.active && p.left == 0 && a.send.WouldBlock? then Ok(0)
    else ReplyFor(p.active, Min(1, p.left), if vectors then p.left else Min(p.left, MAX_SEND), a)
  }

  /** Only a confirmation shortens what is left, and only a pending reply leaves a task active. */
  function Onward(p: Course, a: Answers, vectors: bool): Course {
    var r := ReplyAt(p, a, vectors);
    Course(if r.Ok? then p.left - Min(r.n, p.left) else p.left, r.InProgress?)
  }

  function OnwardAll(p: Course, answers: seq<Answers>, vectors: bool): Course {
    if answers == [] then p else Onward(OnwardAll(p, answers[..|answers| - 1], vectors), answers[|answers| - 1], vectors)
  }

  /** An answer that confirms something whether or not a task is active. */
  predicate Helps(a: Answers) {
    a.send.Sent? && a.send.n > 0 && a.poll.Finished?
  }

  function Helpful(answers: seq<Answers>): nat {
    if answers == [] then 0 else Helpful(answers[..|answers| - 1]) + if Helps(answers[|answers| - 1]) then 1 else 0
  }

  /** Every such answer brings at least one byte across. */
  lemma {:induction false} EnoughAnswers(p: Course, answers: seq<Answers>, vectors: bool)
    ensures OnwardAll(p, answers, vectors).left + Min(Helpful(answers), p.left) <= p.left
  {
    if answers != [] {
      EnoughAnswers(p, answers[..|answers| - 1], vectors);
    }
  }

  lemma OnwardOne(p: Course, answers: seq<Answers>, k: nat, vectors: bool)
    requires k < |answers|
    ensures OnwardAll(p, answers[..k + 1], vectors) == Onward(OnwardAll(p, answers[..k], vectors), answers[k], vectors)
  {
    assert answers[..k + 1][..k] == answers[..k];
  }

  lemma CourseStep(v: View, v': View, data: seq<Byte>, pos: nat, a: Answers, r: Reply, vectors: bool)
    requires pos <= |data| && InStep(v, data, pos) && CallOk(v, v', data[pos..], r)
    requires r == if vectors && !v.active && data[pos..] == [] && a.send.WouldBlock? then Ok(0)
                  else ReplyFor(v.active, |v.buf|, if vectors then |data[pos..]| else Min(|data[pos..]|, MAX_SEND), a)
    ensures var pos' := if r.Ok? then pos + r.n else pos;
            && pos <= pos' <= |data| && InStep(v', data, pos')
            && Course(|data| - pos', v'.active) == Onward(Course(|data| - pos, v.active), a, vectors)
  {
    CallKeepsStep(v, v', data, pos, r);
  }

  /** One call that presents the remainder. */
  method SendNext(sk: Socket, task: Task, data: seq<Byte>, a: Answers, pos0: nat) returns (pos: nat)
    requires Tied(task, sk) && pos0 <= |data| && InStep(Look(sk, task), data, pos0)
    modifies sk, task
    ensures pos0 <= pos <= |data| && Tied(task, sk) && InStep(Look(sk, task), data, pos)
    ensures Course(|data| - pos, task.active) == Onward(Course(|data| - pos0, old(task.active)), a, false)
  {
    ghost var v := Look(sk, task);
    var r := SendAsync(sk, data[pos0..], task, a);
    CourseStep(v, Look(sk, task), data, pos0, a, r, false);
    pos := if r.Ok? then pos0 + r.n else pos0;
  }

  /** Whatever the system answers over any number of calls, no byte is lost, duplicated or reordered: what it
      has accepted is the confirmed prefix, followed, exactly while a task is active, by the next byte. The prefix
      grows by what the answers confirm, so enough of them bring everything across. */
  method SendStream(sk: Socket, task: Task, data: seq<Byte>, answers: seq<Answers>) returns (pos: nat)
    requires Tied(task, sk) && !task.active && sk.taken == []
    modifies sk, task
    ensures pos <= |data|
    ensures sk.Stream() == data[..pos] + (if task.active then First(data[pos..]) else [])
    ensures Course(|data| - pos, task.active) == OnwardAll(Course(|data|, false), answers, false)
    ensures Helpful(answers) >= |data| ==> pos == |data|
  {
    pos := 0;
    for k := 0 to |answers|
      invariant pos <= |data| && Tied(task, sk) && InStep(Look(sk, task), data, pos)
      invariant Course(|data| - pos, task.active) == OnwardAll(Course(|data|, false), answers[..k], false)
    {
      OnwardOne(Course(|data|, false), answers, k, false);
      pos := SendNext(sk, task, data, answers[k], pos);
    }
    assert answers[..|answers|] == answers;
    EnoughAnswers(Course(|data|, false), answers, false);
  }

  /** Shift confirmed bytes off the vectors. */
  method Confirm(iov: array<IoVec>, iovN: nat, n: nat, ghost data: seq<Byte>, ghost pos: nat)
    requires iovN <= iov.Length && AllValid(iov[..iovN])
    requires pos + n <= |data| && Flat(iov[..iovN]) == data[pos..]
    modifies iov
    ensures AllValid(iov[..iovN]) && Flat(iov[..iovN]) == data[pos + n..]
  {
    ShiftDropsFront(iov[..iovN], n);
    assert data[pos..][n..] == data[pos + n..];
    var _ := ArrayShift(iov, iovN, n);
  }

  /** One call with vectors, which are then shifted by what it confirmed. */
  method SendvOnce(sk: Socket, task: Task, iov: array<IoVec>, iovN: nat, a: Answers, ghost data: seq<Byte>, pos0: nat)
    returns (pos: nat)
    requires Tied(task, sk) && pos0 <= |data| && InStep(Look(sk, task), data, pos0)
    requires iovN <= iov.Length && AllValid(iov[..iovN]) && Flat(iov[..iovN]) == data[pos0..]
    modifies sk, task, iov
    ensures pos0 <= pos <= |data| && Tied(task, sk) && InStep(Look(sk, task), data, pos)
    ensures AllValid(iov[..iovN]) && Flat(iov[..iovN]) == data[pos..]
    ensures Course(|data| - pos, task.active) == Onward(Course(|data| - pos0, old(task.active)), a, true)
  {
    ghost var v, vs := Look(sk, task), iov[..iovN];
    var r := SendvAsync(sk, iov, iovN, task, a, data[pos0..]);
    CourseStep(v, Look(sk, task), data, pos0, a, r, true);
    pos := pos0;
    if r.Ok? {
      assert iov[..iovN] == vs;
      Confirm(iov, iovN, r.n, data, pos0);
      pos := pos0 + r.n;
    }
  }

  /** The same with vectors, shifted in place by what was confirmed. */
  method SendvStream(sk: Socket, task: Task, iov: array<IoVec>, iovN: nat, answers: seq<Answers>, ghost data: seq<Byte>)
    returns (pos: nat)
    requires Tied(task, sk) && !task.active && sk.taken == []
    requires iovN <= iov.Length && AllValid(iov[..iovN]) && data == Flat(iov[..iovN])
    modifies sk, task, iov
    ensures pos <= |data|
    ensures sk.Stream() == data[..pos] + (if task.active then First(data[pos..]) else [])
    ensures AllValid(iov[..iovN]) && Flat(iov[..iovN]) == data[pos..]
    ensures Course(|data| - pos, task.active) == OnwardAll(Course(|data|, false), answers, true)
    ensures Helpful(answers) >= |data| ==> pos == |data|
  {
    pos := 0;
    for k := 0 to |answers|
      invariant pos <= |data| && Tied(task, sk) && InStep(Look(sk, task), data, pos)
      invariant AllValid(iov[..iovN]) && Flat(iov[..iovN]) == data[pos..]
      invariant Course(|data| - pos, task.active) == OnwardAll(Course(|data|, false), answers[..k], true)
    {
      OnwardOne(Course(|data|, false), answers, k, true);
      pos := SendvOnce(sk, task, iov, iovN, answers[k], data, pos);
    }
    assert answers[..|answers|] == answers;
    EnoughAnswers(Course(|data|, false), answers, true);
  }

  // ----- callers that change their data between calls

  /** What a caller sees of one call: the bytes it presented and the reply. */
  datatype Call = Call(bytes: seq<Byte>, r: Reply)

  /** The bytes handed to the system by the call that began the task still active, if any. */
  function HandedOver(calls: seq<Call>): Option<seq<Byte>> {
    if calls == [] then None
    else
      var before, last := HandedOver(calls[..|calls| - 1]), calls[|calls| - 1];
      if !last.r.InProgress? then None else if before.Some? then before else Some(First(last.bytes))
  }

  /** What the caller takes to be sent: of each call, as much of what it presented as was confirmed. */
  function Believed(calls: seq<Call>): seq<Byte> {
    if calls == [] then []
    else
      var last := calls[|calls| - 1];
      Believed(calls[..|calls| - 1]) + if last.r.Ok? then last.bytes[..Min(last.r.n, |last.bytes|)] else []
  }

  /** What the system has sent. */
  function Delivered(calls: seq<Call>): seq<Byte> {
    if calls == [] then []
    else
      var init, last := calls[..|calls| - 1], calls[|calls| - 1];
      Delivered(init) +
        if !last.r.Ok? then []
        else if HandedOver(init).Some? then HandedOver(init).value
        else last.bytes[..Min(last.r.n, |last.bytes|)]
  }

  /** A confirmation concerns the bytes handed over or, without a task, some of those presented. */
  ghost predicate Genuine(calls: seq<Call>) {
    forall k :: 0 <= k < |calls| && calls[k].r.Ok? ==>
      if HandedOver(calls[..k]).Some? then calls[k].r.n == |HandedOver(calls[..k]).value|
      else calls[k].r.n <= |calls[k].bytes|
  }

  /** Whenever a task is confirmed, the bytes presented still start with those handed over. */
  ghost predicate Unchanged(calls: seq<Call>) {
    forall k :: 0 <= k < |calls| && calls[k].r.Ok? && HandedOver(calls[..k]).Some? ==>
      HandedOver(calls[..k]).value <= calls[k].bytes
  }

  lemma Prefixes(calls: seq<Call>)
    requires calls != []
    ensures forall k :: 0 <= k < |calls| ==> calls[..|calls| - 1][..k] == calls[..k]
  {
  }

  /** Appending to different sequences can make them equal only if the shorter one gets more. */
  lemma AppendDiffers(a: seq<Byte>, b: seq<Byte>, x: seq<Byte>, y: seq<Byte>)
    requires |b| <= |a| && |y| <= |x|
    ensures a + x == b + y <==> a == b && x == y
  {
    if a + x == b + y {
      assert |a| == |b|;
      assert a == (a + x)[..|a|] == (b + y)[..|b|] == b;
      assert x == (a + x)[|a|..] == (b + y)[|b|..] == y;
    }
  }

  /** Over any calls with any data, the system sends what the caller believes it sent if and only if the data
      presented when a task is confirmed still starts with what was handed over. */
  lemma {:induction false} ChangedDataIff(calls: seq<Call>)
    requires Genuine(calls)
    ensures Delivered(calls) == Believed(calls) <==> Unchanged(calls)
    ensures |Believed(calls)| <= |Delivered(calls)|
  {
    if calls != [] {
      var init, last := calls[..|calls| - 1], calls[|calls| - 1];
      var task := HandedOver(init);
      Prefixes(calls);
      ChangedDataIff(init);
      var x := Delivered(calls)[|Delivered(init)|..];
      var y := if last.r.Ok? then last.bytes[..Min(last.r.n, |last.bytes|)] else [];
      assert Delivered(calls) == Delivered(init) + x;
      AppendDiffers(Delivered(init), Believed(init), x, y);
      LastUnchanged(calls, x, y);
    }
  }

  /** What the last call adds on both sides agrees exactly if it leaves the calls unchanged. */
  lemma LastUnchanged(calls: seq<Call>, x: seq<Byte>, y: seq<Byte>)
    requires calls != [] && Genuine(calls)
    requires var init, last := calls[..|calls| - 1], calls[|calls| - 1];
             && Delivered(calls) == Delivered(init) + x
             && y == if last.r.Ok? then last.bytes[..Min(last.r.n, |last.bytes|)] else []
    ensures Unchanged(calls) <==> Unchanged(calls[..|calls| - 1]) && x == y
    ensures |y| <= |x|
  {
    var init, last := calls[..|calls| - 1], calls[|calls| - 1];
    Prefixes(calls);
    assert x == Delivered(calls)[|Delivered(init)|..];
    assert Unchanged(calls) <==>
      Unchanged(init) && (last.r.Ok? && HandedOver(init).Some? ==> HandedOver(init).value <= last.bytes);
  }

  /** The system and the task are where the calls so far have brought them. */
  ghost predicate After(v: View, calls: seq<Call>) {
    && v.taken == Delivered(calls)
    && v.active == HandedOver(calls).Some?
    && (v.active ==> v.buf == HandedOver(calls).value)
  }

  lemma CallAfter(v: View, v': View, calls: seq<Call>, bytes: seq<Byte>, r: Reply)
    requires Genuine(calls) && After(v, calls) && CallOk(v, v', bytes, r)
    ensures Genuine(calls + [Call(bytes, r)]) && After(v', calls + [Call(bytes, r)])
  {
    var all := calls + [Call(bytes, r)];
    assert all[..|all| - 1] == calls;
    Prefixes(all);
  }

  lemma OneMoreCall(calls: seq<Call>, last: Call)
    ensures var all, task := calls + [last], HandedOver(calls);
            var sent := if last.r.Ok? then last.bytes[..Min(last.r.n, |last.bytes|)] else [];
            && HandedOver(all) == (if !last.r.InProgress? then None else if task.Some? then task else Some(First(last.bytes)))
            && Believed(all) == Believed(calls) + sent
            && Delivered(all) == Delivered(calls) + if last.r.Ok? && task.Some? then task.value else sent
  {
    assert (calls + [last])[..|calls|] == calls;
  }

  /** As the documentation warns: a byte put in front while a task is active is ignored, and the old one sent. */
  lemma NewFirstByteIsIgnored(x: Byte, now: seq<Byte>)
    requires now != [] && now[0] != x
    ensures var calls := [Call([x], InProgress), Call(now, Ok(1))];
            Genuine(calls) && Delivered(calls) == [x] && Believed(calls) == [now[0]]
  {
    var c1, c2 := Call([x], InProgress), Call(now, Ok(1));
    OneMoreCall([], c1);
    assert [] + [c1] == [c1] && [c1] + [c2] == [c1, c2];
    OneMoreCall([c1], c2);
    assert [c1, c2][..1] == [c1] && [c1, c2][..0] == [];
  }

  /** The reply to a call after others. */
  function ReplyAfter(calls: seq<Call>, bytes: seq<Byte>, a: Answers): Reply {
    var task := HandedOver(calls);
    ReplyFor(task.Some?, if task.Some? then |task.value| else 0, Min(|bytes|, MAX_SEND), a)
  }

  /** One call of such a caller. */
  method SendOnce(sk: Socket, task: Task, bytes: seq<Byte>, a: Answers, ghost calls: seq<Call>) returns (r: Reply)
    requires Tied(task, sk) && Genuine(calls) && After(Look(sk, task), calls)
    modifies sk, task
    ensures Tied(task, sk) && Genuine(calls + [Call(bytes, r)]) && After(Look(sk, task), calls + [Call(bytes, r)])
    ensures r == ReplyAfter(calls, bytes, a)
  {
    ghost var v := Look(sk, task);
    r := SendAsync(sk, bytes, task, a);
    CallAfter(v, Look(sk, task), calls, bytes, r);
  }

  /** The calls so far presented these data and got the replies the system's answers lead to. */
  ghost predicate Replied(calls: seq<Call>, datas: seq<seq<Byte>>, answers: seq<Answers>) {
    && |calls| <= |datas| == |answers|
    && forall k :: 0 <= k < |calls| ==>
         calls[k].bytes == datas[k] && calls[k].r == ReplyAfter(calls[..k], datas[k], answers[k])
  }

  lemma RepliedAgain(calls: seq<Call>, datas: seq<seq<Byte>>, answers: seq<Answers>, r: Reply)
    requires Replied(calls, datas, answers) && |calls| < |datas|
    requires r == ReplyAfter(calls, datas[|calls|], answers[|calls|])
    ensures Replied(calls + [Call(datas[|calls|], r)], datas, answers)
  {
    var all := calls + [Call(datas[|calls|], r)];
    Prefixes(all);
    assert all[..|calls|] == calls;
    forall k | 0 <= k < |all| ensures all[k].bytes == datas[k] && all[k].r == ReplyAfter(all[..k], datas[k], answers[k]) {
      assert k < |calls| ==> all[..k] == calls[..k];
    }
  }

  /** A caller that presents any data it likes at each call: the system accepts exactly what the calls say, and
      that is what the caller believes if and only if no handed-over byte was changed before it was confirmed. */
  method SendAny(sk: Socket, task: Task, datas: seq<seq<Byte>>, answers: seq<Answers>) returns (calls: seq<Call>)
    requires Tied(task, sk) && !task.active && sk.taken == [] && |datas| == |answers|
    modifies sk, task
    ensures |calls| == |datas| && Replied(calls, datas, answers)
    ensures sk.taken == Delivered(calls)
    ensures sk.inFlight == (if HandedOver(calls).Some? then HandedOver(calls).value else [])
    ensures sk.taken == Believed(calls) <==> Unchanged(calls)
  {
    calls := [];
    for k := 0 to |datas|
      invariant Tied(task, sk) && Genuine(calls) && After(Look(sk, task), calls)
      invariant |calls| == k && Replied(calls, datas, answers)
    {
      var r := SendOnce(sk, task, datas[k], answers[k], calls);
      RepliedAgain(calls, datas, answers, r);
      calls := calls + [Call(datas[k], r)];
    }
    ChangedDataIff(calls);
  }
}
