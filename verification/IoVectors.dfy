/** I/O vectors and shifting bytes off their front, in place. */
module IoVectors {
  import opened Basics

  /** `len` bytes of `mem` from `base` on. */
  datatype IoVec = IoVec(mem: seq<Byte>, base: nat, len: nat) {
    ghost predicate Valid() {
      base + len <= |mem|
    }
    ghost function Bytes(): (bs: seq<Byte>)
      requires Valid()
      ensures |bs| == len
    {
      mem[base..base + len]
    }
  }

  ghost predicate AllValid(vs: seq<IoVec>) {
    forall i :: 0 <= i < |vs| ==> vs[i].Valid()
  }

  /** The bytes the vectors stand for, one after another. */
  ghost function Flat(vs: seq<IoVec>): seq<Byte>
    requires AllValid(vs)
  {
    if vs == [] then [] else vs[0].Bytes() + Flat(vs[1..])
  }

  function Min(a: nat, b: nat): nat {
    if a < b then a else b
  }

  function Shifted(v: IoVec, n: nat): IoVec {
    var m := Min(n, v.len);
    v.(base := v.base + m, len := v.len - m)
  }

  function ShiftedAll(vs: seq<IoVec>, n: nat): seq<IoVec> {
    if vs == [] then [] else [Shifted(vs[0], n)] + ShiftedAll(vs[1..], n - Min(n, vs[0].len))
  }

  lemma {:induction false} ShiftNothing(vs: seq<IoVec>)
    ensures ShiftedAll(vs, 0) == vs
  {
    if vs != [] {
      ShiftNothing(vs[1..]);
      assert vs == [vs[0]] + vs[1..];
    }
  }

  lemma DropConcat(a: seq<Byte>, b: seq<Byte>, n: nat)
    ensures (a + b)[Min(n, |a + b|)..] == a[Min(n, |a|)..] + b[Min(n - Min(n, |a|), |b|)..]
  {
  }

  lemma ShiftedBytes(v: IoVec, n: nat)
    requires v.Valid()
    ensures Shifted(v, n).Valid() && Shifted(v, n).Bytes() == v.Bytes()[Min(n, v.len)..]
  {
  }

  lemma FlatCons(v: IoVec, vs: seq<IoVec>)
    requires v.Valid() && AllValid(vs)
    ensures AllValid([v] + vs) && Flat([v] + vs) == v.Bytes() + Flat(vs)
  {
    assert ([v] + vs)[1..] == vs;
  }

  /** Shifting n bytes drops the first n bytes of the concatenation, or all of them. */
  lemma {:induction false} ShiftDropsFront(vs: seq<IoVec>, n: nat)
    requires AllValid(vs)
    ensures AllValid(ShiftedAll(vs, n))
    ensures Flat(ShiftedAll(vs, n)) == Flat(vs)[Min(n, |Flat(vs)|)..]
  {
    if vs != [] {
      var rest := n - Min(n, vs[0].len);
      ShiftDropsFront(vs[1..], rest);
      ShiftedBytes(vs[0], n);
      FlatCons(Shifted(vs[0], n), ShiftedAll(vs[1..], rest));
      DropConcat(vs[0].Bytes(), Flat(vs[1..]), n);
    }
  }

  /** Shifting m and then n is shifting m + n, vector by vector. */
  lemma {:induction false} ShiftsAdd(vs: seq<IoVec>, m: nat, n: nat)
    ensures ShiftedAll(ShiftedAll(vs, m), n) == ShiftedAll(vs, m + n)
  {
    if vs != [] {
      var m1 := Min(m, vs[0].len);
      var n1 := Min(n, vs[0].len - m1);
      var tail := ShiftedAll(vs[1..], m - m1);
      assert ([Shifted(vs[0], m)] + tail)[1..] == tail;
      ShiftsAdd(vs[1..], m - m1, n - n1);
    }
  }

  /** ffiovec_shift on element `i`: takes up to `n` bytes off the front and says how many. The vector keeps its
      memory and its end. */
  method Shift(iov: array<IoVec>, i: nat, n: nat) returns (m: nat)
    requires i < iov.Length && iov[i].Valid()
    modifies iov
    ensures m == Min(n, |old(iov[i].Bytes())|)
    ensures iov[i].Valid() && iov[i].Bytes() == old(iov[i].Bytes())[m..]
    ensures iov[i].mem == old(iov[i]).mem && iov[i].base + iov[i].len == old(iov[i].base + iov[i].len)
    ensures forall j :: 0 <= j < iov.Length && j != i ==> iov[j] == old(iov[j])
  {
    m := Min(n, iov[i].len);
    iov[i] := iov[i].(base := iov[i].base + m, len := iov[i].len - m);
  }

  /** The same in terms of `Shifted`. */
  method ShiftTo(iov: array<IoVec>, i: nat, n: nat) returns (m: nat)
    requires i < iov.Length && iov[i].Valid()
    modifies iov
    ensures iov[i] == Shifted(old(iov[i]), n)
    ensures forall j :: 0 <= j < iov.Length && j != i ==> iov[j] == old(iov[j])
    ensures m == Min(n, old(iov[i]).len)
  {
    m := Shift(iov, i, n);
  }

  /** From `i` on, the vectors still to be reached are those of `want` once `skip` more bytes are shifted off. */
  ghost predicate OnCourse(vs: seq<IoVec>, i: nat, skip: nat, want: seq<IoVec>)
    requires i <= |vs| == |want|
  {
    ShiftedAll(vs[i..], skip) == want[i..]
  }

  lemma ShiftStep(vs: seq<IoVec>, i: nat, skip: nat, want: seq<IoVec>)
    requires i < |vs| == |want| && OnCourse(vs, i, skip, want)
    ensures want[i] == Shifted(vs[i], skip)
    ensures OnCourse(vs, i + 1, skip - Min(skip, vs[i].len), want)
    ensures skip <= vs[i].len ==> forall j :: i < j < |vs| ==> vs[j] == want[j]
  {
    assert vs[i..][1..] == vs[i + 1..];
    assert want[i] == want[i..][0] && want[i + 1..] == want[i..][1..];
    if skip <= vs[i].len {
      ShiftNothing(vs[i + 1..]);
      assert forall j :: i < j < |vs| ==> vs[j] == vs[i + 1..][j - i - 1];
    }
  }

  lemma {:induction false} SameLength(vs: seq<IoVec>, n: nat)
    ensures |ShiftedAll(vs, n)| == |vs|
  {
    if vs != [] {
      SameLength(vs[1..], n - Min(n, vs[0].len));
    }
  }

  /** ffiovec_array_shift: stops at the first vector with bytes left, and reports whether there is one. */
  method ArrayShift(iov: array<IoVec>, n: nat, skip0: nat) returns (left: bool)
    requires n <= iov.Length && AllValid(iov[..n])
    modifies iov
    ensures iov[..n] == ShiftedAll(old(iov[..n]), skip0)
    ensures forall i :: n <= i < iov.Length ==> iov[i] == old(iov[i])
    ensures left <==> skip0 < |Flat(old(iov[..n]))|
  {
    ghost var vs, want := iov[..n], ShiftedAll(iov[..n], skip0);
    SameLength(vs, skip0);
    assert vs[0..] == vs && want[0..] == want;
    LeftIff(vs, skip0);
    var skip, i := skip0, 0;
    while i != n
      invariant 0 <= i <= n
      invariant forall j :: 0 <= j < i ==> iov[j] == want[j] && want[j].len == 0
      invariant forall j :: i <= j < iov.Length ==> iov[j] == old(iov[j])
      invariant OnCourse(vs, i, skip, want)
      decreases n - i
    {
      ShiftStep(vs, i, skip, want);
      var m := ShiftTo(iov, i, skip);
      if iov[i].len != 0 {
        return true;
      }
      skip := skip - m;
      i := i + 1;
    }
    return false;
  }

  /** Something is left exactly when some vector still has bytes. */
  lemma LeftIff(vs: seq<IoVec>, n: nat)
    requires AllValid(vs)
    ensures n < |Flat(vs)| <==> exists i :: 0 <= i < |ShiftedAll(vs, n)| && ShiftedAll(vs, n)[i].len != 0
  {
    var w := ShiftedAll(vs, n);
    ShiftDropsFront(vs, n);
    if i :| 0 <= i < |w| && w[i].len != 0 {
      SomeLeft(w, i);
    } else {
      NoneLeft(w);
    }
  }

  lemma {:induction false} SomeLeft(vs: seq<IoVec>, i: nat)
    requires AllValid(vs) && i < |vs| && vs[i].len != 0
    ensures Flat(vs) != []
  {
    if i > 0 {
      SomeLeft(vs[1..], i - 1);
    }
  }

  lemma {:induction false} NoneLeft(vs: seq<IoVec>)
    requires AllValid(vs) && forall i :: 0 <= i < |vs| ==> vs[i].len == 0
    ensures Flat(vs) == []
  {
    if vs != [] {
      NoneLeft(vs[1..]);
    }
  }

  lemma FlatFrom(vs: seq<IoVec>, i: nat)
    requires AllValid(vs) && i < |vs|
    ensures Flat(vs[i..]) == vs[i].Bytes() + Flat(vs[i + 1..])
  {
    assert vs[i..][1..] == vs[i + 1..];
  }

  lemma Associate(a: seq<Byte>, b: seq<Byte>, c: seq<Byte>)
    ensures (a + b) + c == a + (b + c)
  {
  }

  /** The bytes the system finds in the vectors. */
  method Gather(iov: array<IoVec>, n: nat) returns (all: seq<Byte>)
    requires n <= iov.Length && AllValid(iov[..n])
    ensures all == Flat(iov[..n])
  {
    all := [];
    ghost var vs := iov[..n];
    assert vs[0..] == vs;
    for i := 0 to n
      invariant all + Flat(vs[i..]) == Flat(vs)
    {
      FlatFrom(vs, i);
      var bytes := iov[i].mem[iov[i].base..iov[i].base + iov[i].len];
      assert bytes == vs[i].Bytes();
      Associate(all, bytes, Flat(vs[i + 1..]));
      all := all + bytes;
    }
  }

  /** A partial write: the system takes some bytes off the front. */
  method Write(iov: array<IoVec>, n: nat, take: nat) returns (sent: seq<Byte>)
    requires n <= iov.Length && AllValid(iov[..n])
    ensures |sent| == Min(take, |Flat(iov[..n])|) && sent == Flat(iov[..n])[..|sent|]
  {
    var all := Gather(iov, n);
    sent := all[..Min(take, |all|)];
  }

  /** One write and the shift by what it took. */
  method WriteAndShift(iov: array<IoVec>, n: nat, take: nat) returns (sent: seq<Byte>, left: bool)
    requires n <= iov.Length && AllValid(iov[..n])
    modifies iov
    ensures AllValid(iov[..n]) && sent + Flat(iov[..n]) == old(Flat(iov[..n]))
    ensures |sent| == Min(take, |old(Flat(iov[..n]))|)
    ensures left <==> Flat(iov[..n]) != []
  {
    sent := Write(iov, n, take);
    ShiftDropsFront(iov[..n], |sent|);
    left := ArrayShift(iov, n, |sent|);
  }

  function Sum(ns: seq<nat>): nat {
    if ns == [] then 0 else Sum(ns[..|ns| - 1]) + ns[|ns| - 1]
  }

  /** Writing vectors out and shifting them by what each write took, over any partial writes: what went out
      followed by what is left is always the original, and as much went out as the writes were ready to take. */
  method SendRounds(iov: array<IoVec>, n: nat, takes: seq<nat>) returns (out: seq<Byte>, left: bool)
    requires n <= iov.Length && AllValid(iov[..n])
    modifies iov
    ensures AllValid(iov[..n]) && out + Flat(iov[..n]) == old(Flat(iov[..n]))
    ensures |out| == Min(Sum(takes), |old(Flat(iov[..n]))|)
    ensures takes != [] ==> (left <==> Flat(iov[..n]) != [])
    ensures takes != [] && !left ==> out == old(Flat(iov[..n]))
  {
    out, left := [], true;
    for k := 0 to |takes|
      invariant AllValid(iov[..n]) && out + Flat(iov[..n]) == old(Flat(iov[..n]))
      invariant |out| == Min(Sum(takes[..k]), |old(Flat(iov[..n]))|)
      invariant k > 0 ==> (left <==> Flat(iov[..n]) != [])
    {
      var sent;
      sent, left := WriteAndShift(iov, n, takes[k]);
      Associate(out, sent, Flat(iov[..n]));
      assert takes[..k + 1][..k] == takes[..k];
      out := out + sent;
    }
    assert takes[..|takes|] == takes;
  }
}
