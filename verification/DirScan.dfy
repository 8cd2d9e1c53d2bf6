/** A directory listing packed into one buffer: the names, then their 32-bit offsets in listing order. */
module DirScan {
  import opened Basics
  import opened WrapTime
  import opened DirOrder

  // ----- names packed one after another

  function Pack(ns: seq<Name>): seq<Byte> {
    if ns == [] then [] else Pack(ns[..|ns| - 1]) + ns[|ns| - 1] + [0]
  }

  function OffsetsOf(ns: seq<Name>): (offs: seq<nat>)
    ensures |offs| == |ns|
  {
    if ns == [] then [] else OffsetsOf(ns[..|ns| - 1]) + [|Pack(ns[..|ns| - 1])|]
  }

  ghost predicate AllNulFree(ns: seq<Name>) {
    forall i :: 0 <= i < |ns| ==> NulFree(ns[i])
  }

  ghost predicate AllStart(buf: seq<Byte>, offs: seq<nat>) {
    forall i :: 0 <= i < |offs| ==> Terminated(buf, offs[i])
  }

  ghost function NamesAt(buf: seq<Byte>, offs: seq<nat>): (ns: seq<Name>)
    ensures |ns| == |offs| && forall i :: 0 <= i < |offs| ==> ns[i] == NameAt(buf, offs[i])
  {
    seq(|offs|, i requires 0 <= i < |offs| => NameAt(buf, offs[i]))
  }

  /** Appending to the buffer leaves the names in it alone. */
  lemma {:induction false} NameAtExtends(buf: seq<Byte>, o: nat, rest: seq<Byte>)
    requires Terminated(buf, o)
    ensures Terminated(buf + rest, o) && NameAt(buf + rest, o) == NameAt(buf, o)
    decreases |buf| - o
  {
    if buf[o] != 0 {
      NameAtExtends(buf, o + 1, rest);
    }
  }

  lemma {:induction false} NameAtEnd(buf: seq<Byte>, name: Name, i: nat)
    requires NulFree(name) && i <= |name|
    ensures Terminated(buf + name + [0], |buf| + i) && NameAt(buf + name + [0], |buf| + i) == name[i..]
    decreases |name| - i
  {
    var s := buf + name + [0];
    if i < |name| {
      NameAtEnd(buf, name, i + 1);
      assert s[|buf| + i] == name[i];
    } else {
      assert s[|buf| + i] == 0;
    }
  }

  /** The offset recorded while packing a name leads back to it. */
  lemma {:induction false} PackedName(ns: seq<Name>, i: nat)
    requires AllNulFree(ns) && i < |ns|
    ensures Terminated(Pack(ns), OffsetsOf(ns)[i]) && NameAt(Pack(ns), OffsetsOf(ns)[i]) == ns[i]
  {
    var init, last := ns[..|ns| - 1], ns[|ns| - 1];
    if i < |init| {
      PackedName(init, i);
      NameAtExtends(Pack(init), OffsetsOf(init)[i], last + [0]);
      assert Pack(init) + (last + [0]) == Pack(ns);
    } else {
      NameAtEnd(Pack(init), last, 0);
    }
  }

  lemma PackedNames(ns: seq<Name>)
    requires AllNulFree(ns)
    ensures AllStart(Pack(ns), OffsetsOf(ns)) && NamesAt(Pack(ns), OffsetsOf(ns)) == ns
  {
    forall i | 0 <= i < |ns|
      ensures Terminated(Pack(ns), OffsetsOf(ns)[i]) && NamesAt(Pack(ns), OffsetsOf(ns))[i] == ns[i]
    {
      PackedName(ns, i);
    }
  }

  // ----- 32-bit offsets as bytes

  function Encode(o: nat): seq<Byte> {
    var q1 := o / 256;
    var q2 := q1 / 256;
    var q3 := q2 / 256;
    [o % 256, q1 % 256, q2 % 256, q3 % 256]
  }

  function ReadOffset(b: seq<Byte>, p: nat): nat
    requires p + 4 <= |b|
  {
    (b[p] as int) + 0x100 * (b[p + 1] as int) + 0x1_0000 * (b[p + 2] as int) + 0x100_0000 * (b[p + 3] as int)
  }

  lemma ModUnique(o: int, x: int, q: int)
    requires o == x + WORD * q && 0 <= x < WORD
    ensures o % WORD == x
  {
  }

  /** Four bytes hold an offset up to 2^32. */
  lemma DecodeEncode(o: nat)
    ensures ReadOffset(Encode(o), 0) == o % WORD
  {
    var q1 := o / 256;
    var q2 := q1 / 256;
    var q3 := q2 / 256;
    ModUnique(o, ReadOffset(Encode(o), 0), q3 / 256);
  }

  function EncodeAll(offs: seq<nat>): (bs: seq<Byte>)
    ensures |bs| == 4 * |offs|
  {
    if offs == [] then [] else EncodeAll(offs[..|offs| - 1]) + Encode(offs[|offs| - 1])
  }

  lemma {:induction false} EncodedAt(offs: seq<nat>, k: nat)
    requires k < |offs|
    ensures ReadOffset(EncodeAll(offs), 4 * k) == ReadOffset(Encode(offs[k]), 0)
  {
    if k < |offs| - 1 {
      EncodedAt(offs[..|offs| - 1], k);
    }
  }

  // ----- sorting

  lemma NamesOfInsert(buf: seq<Byte>, offs: seq<nat>, o: nat, j: nat)
    requires j <= |offs|
    ensures NamesAt(buf, offs[..j] + [o] + offs[j..]) == NamesAt(buf, offs)[..j] + [NameAt(buf, o)] + NamesAt(buf, offs)[j..]
  {
  }

  lemma InsertedMultiset<T>(s: seq<T>, x: T, j: nat)
    requires j <= |s|
    ensures multiset(s[..j] + [x] + s[j..]) == multiset(s) + multiset{x}
  {
    assert s == s[..j] + s[j..];
  }

  lemma InsertBack<T>(b: seq<T>, i: nat, b': seq<T>)
    requires i < |b| && b' == b[..i] + b[i + 1..]
    ensures b == b'[..i] + [b[i]] + b'[i..]
  {
  }

  /** The first offset of `a` taken out of `b`. */
  lemma FindFirst<T>(a: seq<T>, b: seq<T>) returns (b': seq<T>, i: nat)
    requires a != [] && multiset(a) == multiset(b)
    ensures i <= |b'| && b == b'[..i] + [a[0]] + b'[i..] && multiset(a[1..]) == multiset(b')
  {
    TailMultiset(a);
    assert a[0] in multiset(b);
    i :| 0 <= i < |b| && b[i] == a[0];
    b' := b[..i] + b[i + 1..];
    InsertBack(b, i, b');
    InsertedMultiset(b', a[0], i);
  }

  lemma NamesOfTail(buf: seq<Byte>, a: seq<nat>)
    requires a != []
    ensures multiset(NamesAt(buf, a)) == multiset(NamesAt(buf, a[1..])) + multiset{NameAt(buf, a[0])}
  {
    TailMultiset(NamesAt(buf, a));
    assert NamesAt(buf, a)[1..] == NamesAt(buf, a[1..]);
  }

  /** A rearranged list of offsets names a rearranged list of names. */
  lemma {:induction false} NamesOfPermutation(buf: seq<Byte>, a: seq<nat>, b: seq<nat>)
    requires multiset(a) == multiset(b)
    ensures multiset(NamesAt(buf, a)) == multiset(NamesAt(buf, b))
    decreases |a|
  {
    if a == [] {
      assert |multiset(b)| == |b|;
    } else {
      var b', i := FindFirst(a, b);
      NamesOfPermutation(buf, a[1..], b');
      NamesOfTail(buf, a);
      NamesOfInsert(buf, b', a[0], i);
      InsertedMultiset(NamesAt(buf, b'), NameAt(buf, a[0]), i);
    }
  }

  /** _ffdirscan_cmpname: the names at two offsets of the buffer. */
  method CompareAt(buf: seq<Byte>, o1: nat, o2: nat) returns (r: int)
    requires Terminated(buf, o1) && Terminated(buf, o2)
    ensures r == Cmp(NameAt(buf, o1), NameAt(buf, o2))
  {
    r := Compare(buf, o1, buf, o2);
  }

  /** From `j` on, no name is less than `x`. */
  ghost predicate NoneLess(ns: seq<Name>, j: nat, x: Name) {
    forall i :: j <= i < |ns| ==> Cmp(x, ns[i]) <= 0
  }

  lemma NoneLessStep(ns: seq<Name>, j: nat, x: Name)
    requires j < |ns| && NoneLess(ns, j + 1, x) && Cmp(ns[j], x) > 0
    ensures NoneLess(ns, j, x)
  {
    CmpAntisymmetric(ns[j], x);
  }

  /** Where the offset belongs: after every name that is not greater. */
  method FindSlot(buf: seq<Byte>, offs: seq<nat>, o: nat, ghost ns: seq<Name>, ghost x: Name) returns (j: nat)
    requires AllStart(buf, offs) && Terminated(buf, o) && ns == NamesAt(buf, offs) && x == NameAt(buf, o)
    ensures j <= |offs| && NoneLess(ns, j, x)
    ensures j > 0 ==> Cmp(ns[j - 1], x) <= 0
  {
    j := |offs|;
    while j > 0
      invariant 0 <= j <= |offs| && NoneLess(ns, j, x)
    {
      var c := CompareAt(buf, offs[j - 1], o);
      if c <= 0 {
        break;
      }
      j := j - 1;
      NoneLessStep(ns, j, x);
    }
  }

  lemma SlotSorted(ns: seq<Name>, x: Name, j: nat)
    requires Sorted(ns) && j <= |ns| && NoneLess(ns, j, x)
    requires j > 0 ==> Cmp(ns[j - 1], x) <= 0
    ensures Sorted(ns[..j] + [x] + ns[j..])
  {
    forall i | 0 <= i < j ensures Cmp(ns[i], x) <= 0 {
      if i < j - 1 {
        CmpTransitive(ns[i], ns[j - 1], x);
      }
    }
    InsertedSorted(ns, x, j);
  }

  lemma StartsInsert(buf: seq<Byte>, offs: seq<nat>, o: nat, j: nat)
    requires AllStart(buf, offs) && Terminated(buf, o) && j <= |offs|
    ensures AllStart(buf, offs[..j] + [o] + offs[j..])
  {
  }

  /** Put one more offset into a sorted list of offsets. */
  method InsertOffset(buf: seq<Byte>, offs: seq<nat>, o: nat) returns (r: seq<nat>)
    requires AllStart(buf, offs) && Terminated(buf, o) && Sorted(NamesAt(buf, offs))
    ensures AllStart(buf, r) && Sorted(NamesAt(buf, r))
    ensures multiset(r) == multiset(offs) + multiset{o}
  {
    ghost var ns, x := NamesAt(buf, offs), NameAt(buf, o);
    var j := FindSlot(buf, offs, o, ns, x);
    r := offs[..j] + [o] + offs[j..];
    SlotSorted(ns, x, j);
    NamesOfInsert(buf, offs, o, j);
    InsertedMultiset(offs, o, j);
    StartsInsert(buf, offs, o, j);
  }

  lemma InsertedSorted(ns: seq<Name>, x: Name, j: nat)
    requires Sorted(ns) && j <= |ns|
    requires forall i :: 0 <= i < j ==> Cmp(ns[i], x) <= 0
    requires forall i :: j <= i < |ns| ==> Cmp(x, ns[i]) <= 0
    ensures Sorted(ns[..j] + [x] + ns[j..])
  {
    var r := ns[..j] + [x] + ns[j..];
    assert forall i :: 0 <= i < j ==> r[i] == ns[i];
    assert forall i :: j < i < |r| ==> r[i] == ns[i - 1];
  }

  /** ffsort with the name comparator: a sorted rearrangement. */
  method SortOffsets(buf: seq<Byte>, offs: seq<nat>) returns (r: seq<nat>)
    requires AllStart(buf, offs)
    ensures AllStart(buf, r) && Sorted(NamesAt(buf, r)) && multiset(r) == multiset(offs)
  {
    r := [];
    for k := 0 to |offs|
      invariant AllStart(buf, r) && Sorted(NamesAt(buf, r))
      invariant multiset(r) == multiset(offs[..k])
    {
      assert offs[..k + 1] == offs[..k] + [offs[k]];
      r := InsertOffset(buf, r, offs[k]);
    }
    assert offs[..|offs|] == offs;
  }

  // ----- the listing

  /** From `index` on, the buffer holds the offsets of the names in `list`. */
  ghost predicate Lists(names: seq<Byte>, index: nat, list: seq<Name>) {
    && index + 4 * |list| == |names|
    && forall k :: 0 <= k < |list| ==> NameAt(names, ReadOffset(names, index + 4 * k)) == list[k]
  }

  lemma TerminatedInside(buf: seq<Byte>, o: nat)
    requires Terminated(buf, o)
    ensures o < |buf|
  {
  }

  lemma ReadBehind(buf: seq<Byte>, tail: seq<Byte>, p: nat)
    requires p + 4 <= |tail|
    ensures ReadOffset(buf + tail, |buf| + p) == ReadOffset(tail, p)
  {
  }

  lemma SmallMod(o: nat)
    requires o < WORD
    ensures o % WORD == o
  {
  }

  lemma OffsetBack(buf: seq<Byte>, offs: seq<nat>, k: nat)
    requires k < |offs| && offs[k] < WORD
    ensures ReadOffset(buf + EncodeAll(offs), |buf| + 4 * k) == offs[k]
  {
    ReadBehind(buf, EncodeAll(offs), 4 * k);
    EncodedAt(offs, k);
    DecodeEncode(offs[k]);
    SmallMod(offs[k]);
  }

  /** Names followed by their encoded offsets list the names in the order of the offsets. */
  lemma PackedLists(buf: seq<Byte>, offs: seq<nat>)
    requires AllStart(buf, offs) && |buf| < WORD
    ensures Lists(buf + EncodeAll(offs), |buf|, NamesAt(buf, offs))
  {
    var names := buf + EncodeAll(offs);
    forall k | 0 <= k < |offs| ensures NameAt(names, ReadOffset(names, |buf| + 4 * k)) == NamesAt(buf, offs)[k] {
      TerminatedInside(buf, offs[k]);
      OffsetBack(buf, offs, k);
      NameAtExtends(buf, offs[k], EncodeAll(offs));
    }
  }

  /** Flags and filter of a scan. A wildcard is any predicate on names. */
  datatype Options = Options(dots: bool, noSort: bool, wildcard: Option<Name -> bool>)

  /** What may go wrong: anything up to the end of reading, or only the room for the offsets behind the names. */
  datatype Failure = NoFailure | Reading | NoRoomForOffsets

  const DOT: Byte := 46

  predicate IsDots(name: Name) {
    name == [DOT] || name == [DOT, DOT]
  }

  predicate Accepts(o: Options, name: Name) {
    (o.dots || !IsDots(name)) && (o.wildcard.Some? ==> o.wildcard.value(name))
  }

  function Accepted(o: Options, entries: seq<Name>): seq<Name> {
    if entries == [] then []
    else
      var init, last := Accepted(o, entries[..|entries| - 1]), entries[|entries| - 1];
      if Accepts(o, last) then init + [last] else init
  }

  lemma {:induction false} AcceptedNulFree(o: Options, entries: seq<Name>)
    requires AllNulFree(entries)
    ensures AllNulFree(Accepted(o, entries))
  {
    if entries != [] {
      AcceptedNulFree(o, entries[..|entries| - 1]);
    }
  }

  lemma {:induction false} AcceptedCount(o: Options, entries: seq<Name>, x: Name)
    ensures multiset(Accepted(o, entries))[x] == if Accepts(o, x) then multiset(entries)[x] else 0
  {
    if entries != [] {
      var init, last := entries[..|entries| - 1], entries[|entries| - 1];
      AcceptedCount(o, init, x);
      assert entries == init + [last];
    }
  }

  /** The listing holds every name as often as the directory yields it if it is wanted, and else not at all. Wanted are
      all that match the wildcard, if there is one, except the names "." and ".." unless asked for. */
  ghost predicate ListsWanted(o: Options, entries: seq<Name>, list: seq<Name>) {
    forall x: Name :: multiset(list)[x] ==
      if (o.dots || (x != [46] && x != [46, 46])) && (o.wildcard.None? || o.wildcard.value(x)) then multiset(entries)[x] else 0
  }

  /** `a` is `b` with some elements left out. */
  ghost predicate Subsequence<T>(a: seq<T>, b: seq<T>) {
    a == [] ||
    (b != [] &&
     ((a[|a| - 1] == b[|b| - 1] && Subsequence(a[..|a| - 1], b[..|b| - 1])) || Subsequence(a, b[..|b| - 1])))
  }

  lemma AcceptedIsWanted(o: Options, entries: seq<Name>, list: seq<Name>)
    requires multiset(list) == multiset(Accepted(o, entries))
    ensures ListsWanted(o, entries, list)
  {
    forall x: Name ensures multiset(list)[x] ==
      if (o.dots || (x != [46] && x != [46, 46])) && (o.wildcard.None? || o.wildcard.value(x)) then multiset(entries)[x] else 0
    {
      AcceptedCount(o, entries, x);
    }
  }

  lemma {:induction false} AcceptedInOrder(o: Options, entries: seq<Name>)
    ensures Subsequence(Accepted(o, entries), entries)
  {
    if entries != [] {
      var init, last := entries[..|entries| - 1], entries[|entries| - 1];
      AcceptedInOrder(o, init);
      if Accepts(o, last) {
        assert (Accepted(o, init) + [last])[..|Accepted(o, init)|] == Accepted(o, init);
      }
    }
  }

  class Scan {
    var names: seq<Byte>
    var len: nat
    var index: nat
    var cur: nat
    /** The names in listing order, and how many have been returned. */
    ghost var list: seq<Name>
    ghost var pos: nat

    ghost predicate Valid()
      reads this
    {
      && Lists(names, index, list)
      && len == |names|
      && pos <= |list|
      && cur == index + 4 * pos
    }

    constructor ()
      ensures Valid() && list == []
    {
      names, len, index, cur := [], 0, 0, 0;
      list, pos := [], 0;
    }

    /** ffdirscan_open on the entries the directory yields before it ends. Offsets are 32-bit, so the names must
        pack into less than 2^32 bytes. A failed open leaves the scan as it was, except that `index` is already
        written when the offsets find no room. */
    method Open(entries: seq<Name>, failure: Failure, o: Options) returns (ok: bool)
      requires AllNulFree(entries) && |Pack(Accepted(o, entries))| < WORD
      modifies this
      ensures ok <==> failure.NoFailure? || (failure.NoRoomForOffsets? && Accepted(o, entries) == [])
      ensures ok ==> Valid() && pos == 0
      ensures ok && o.noSort ==> list == Accepted(o, entries)
      ensures ok && !o.noSort ==> Sorted(list) && multiset(list) == multiset(Accepted(o, entries))
      ensures ok ==> ListsWanted(o, entries, list)
      ensures ok && o.noSort ==> Subsequence(list, entries)
      ensures !ok ==> unchanged(`names, `len, `cur, `list, `pos)
      ensures !ok ==> index == if failure.Reading? then old(index) else |Pack(Accepted(o, entries))|
    {
      if failure.Reading? {
        return false;
      }
      var buf, offs := Collect(entries, o);
      AcceptedNulFree(o, entries);
      PackedNames(Accepted(o, entries));
      if !o.noSort {
        offs := Arrange(buf, offs);
      }
      index := |buf|;
      if |offs| != 0 && failure.NoRoomForOffsets? {
        return false;
      }
      Store(buf, offs);
      AcceptedIsWanted(o, entries, list);
      AcceptedInOrder(o, entries);
      ok := true;
    }

    /** The end of ffdirscan_open: the offsets go behind the names. */
    method Store(buf: seq<Byte>, offs: seq<nat>)
      requires AllStart(buf, offs) && |buf| < WORD && index == |buf|
      modifies `names, `len, `cur, `list, `pos
      ensures Valid() && pos == 0 && list == NamesAt(buf, offs)
    {
      PackedLists(buf, offs);
      names := buf + EncodeAll(offs);
      len, cur := |names|, index;
      list, pos := NamesAt(buf, offs), 0;
    }

    /** ffdirscan_next */
    method Next() returns (r: Option<Name>)
      requires Valid()
      modifies this`cur, this`pos
      ensures Valid()
      ensures old(pos) == |list| ==> r == None && pos == old(pos)
      ensures old(pos) < |list| ==> r == Some(list[old(pos)]) && pos == old(pos) + 1
    {
      if cur == len {
        return None;
      }
      var off := ReadOffset(names, cur);
      cur, pos := cur + 4, pos + 1;
      return Some(NameAt(names, off));
    }

    /** ffdirscan_reset */
    method Reset()
      requires Valid()
      modifies this`cur, this`pos
      ensures Valid() && pos == 0
    {
      cur, pos := index, 0;
    }
  }

  method Arrange(buf: seq<Byte>, offs: seq<nat>) returns (r: seq<nat>)
    requires AllStart(buf, offs)
    ensures AllStart(buf, r) && Sorted(NamesAt(buf, r)) && |r| == |offs|
    ensures multiset(NamesAt(buf, r)) == multiset(NamesAt(buf, offs))
  {
    r := SortOffsets(buf, offs);
    assert |r| == |multiset(r)| == |multiset(offs)| == |offs|;
    NamesOfPermutation(buf, r, offs);
  }

  /** The reading loop of ffdirscan_open: names into the buffer, their offsets aside. */
  method Collect(entries: seq<Name>, o: Options) returns (buf: seq<Byte>, offs: seq<nat>)
    ensures buf == Pack(Accepted(o, entries)) && offs == OffsetsOf(Accepted(o, entries))
  {
    buf, offs := [], [];
    for i := 0 to |entries|
      invariant buf == Pack(Accepted(o, entries[..i])) && offs == OffsetsOf(Accepted(o, entries[..i]))
    {
      ghost var ns := Accepted(o, entries[..i]);
      assert entries[..i + 1][..i] == entries[..i];
      if Accepts(o, entries[i]) {
        assert (ns + [entries[i]])[..|ns|] == ns;
        offs := offs + [|buf|];
        buf := buf + entries[i] + [0];
      }
    }
    assert entries[..|entries|] == entries;
  }

  /** Reading to the end yields the list and then nothing; after a reset it yields the same again. */
  method ReadTwice(d: Scan) returns (first: seq<Name>, second: seq<Name>)
    requires d.Valid() && d.pos == 0
    modifies d`cur, d`pos
    ensures d.Valid() && d.pos == |d.list|
    ensures first == second == d.list
  {
    first := ReadAll(d);
    d.Reset();
    second := ReadAll(d);
  }

  method ReadAll(d: Scan) returns (all: seq<Name>)
    requires d.Valid() && d.pos == 0
    modifies d`cur, d`pos
    ensures d.Valid() && d.pos == |d.list| && all == d.list
  {
    all := [];
    while true
      invariant d.Valid() && all == d.list[..d.pos]
      decreases |d.list| - d.pos
    {
      var r := d.Next();
      if r.None? {
        break;
      }
      all := all + [r.value];
    }
  }

  lemma AcceptedPermutes(o: Options, a: seq<Name>, b: seq<Name>)
    requires multiset(a) == multiset(b)
    ensures multiset(Accepted(o, a)) == multiset(Accepted(o, b))
  {
    forall x ensures multiset(Accepted(o, a))[x] == multiset(Accepted(o, b))[x] {
      AcceptedCount(o, a, x);
      AcceptedCount(o, b, x);
    }
  }

  /** Two scans of a directory whose entries the system yields in different orders list the same. */
  method OpenBoth(d: Scan, e: Scan, a: seq<Name>, b: seq<Name>, o: Options)
    requires d != e && !o.noSort && multiset(a) == multiset(b) && AllNulFree(a) && AllNulFree(b)
    requires |Pack(Accepted(o, a))| < WORD && |Pack(Accepted(o, b))| < WORD
    modifies d, e
    ensures d.Valid() && e.Valid() && d.list == e.list
  {
    var _ := d.Open(a, NoFailure, o);
    var _ := e.Open(b, NoFailure, o);
    AcceptedPermutes(o, a, b);
    SortedIsUnique(d.list, e.list);
  }
}
