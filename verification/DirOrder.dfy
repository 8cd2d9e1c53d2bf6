/** The order in which directory entries are listed. */
module DirOrder {
  import opened Basics

  type Name = seq<Byte>

  ghost predicate NulFree(s: Name) {
    forall i :: 0 <= i < |s| ==> s[i] != 0
  }

  /** The NUL-terminated string at position `p` of a buffer. */
  function NameAt(s: seq<Byte>, p: nat): Name
    decreases |s| - p
  {
    if p >= |s| || s[p] == 0 then [] else [s[p]] + NameAt(s, p + 1)
  }

  /** There is a terminator at or after `p`. */
  predicate Terminated(s: seq<Byte>, p: nat)
    decreases |s| - p
  {
    p < |s| && (s[p] == 0 || Terminated(s, p + 1))
  }

  predicate Upper(c: Byte) {
    65 <= c <= 90 // 'A' to 'Z'
  }

  function Fold(c: Byte): int {
    if Upper(c) then c + 32 else c
  }

  /** Letters sort without regard to case, and of the same letter the small one comes first. */
  function Rank(c: Byte): int {
    2 * Fold(c) + if Upper(c) then 1 else 0
  }

  lemma RankInjective(a: Byte, b: Byte)
    ensures Rank(a) == Rank(b) <==> a == b
  {
  }

  /** Dictionary order by rank, a shorter name first. */
  function Cmp(x: Name, y: Name): int {
    if x == [] then (if y == [] then 0 else -1)
    else if y == [] then 1
    else if x[0] == y[0] then Cmp(x[1..], y[1..])
    else if Rank(x[0]) < Rank(y[0]) then -1 else 1
  }

  lemma {:induction false} CmpZeroIffEqual(x: Name, y: Name)
    ensures Cmp(x, y) == 0 <==> x == y
  {
    if x != [] && y != [] && x[0] == y[0] {
      CmpZeroIffEqual(x[1..], y[1..]);
      assert x == [x[0]] + x[1..] && y == [y[0]] + y[1..];
    }
  }

  lemma {:induction false} CmpAntisymmetric(x: Name, y: Name)
    ensures Cmp(x, y) == -Cmp(y, x)
  {
    if x != [] && y != [] {
      RankInjective(x[0], y[0]);
      if x[0] == y[0] {
        CmpAntisymmetric(x[1..], y[1..]);
      }
    }
  }

  lemma {:induction false} CmpTransitive(x: Name, y: Name, z: Name)
    requires Cmp(x, y) <= 0 && Cmp(y, z) <= 0
    ensures Cmp(x, z) <= 0
  {
    if x != [] && y != [] && z != [] {
      RankInjective(x[0], y[0]);
      RankInjective(y[0], z[0]);
      if x[0] == y[0] && y[0] == z[0] {
        CmpTransitive(x[1..], y[1..], z[1..]);
      }
    }
  }

  /** The byte as a small letter, if it is a capital one. */
  function Small(c: Byte): int {
    if 'A' as int <= c <= 'Z' as int then c + ('a' as int - 'A' as int) else c
  }

  /** The first difference decides: by letter regardless of case and, for the two cases of one letter, the small one
      first, whatever follows. */
  lemma {:induction false} FirstDifferenceDecides(p: Name, a: Byte, x: Name, b: Byte, y: Name)
    requires a != b
    ensures Cmp(p + [a] + x, p + [b] + y) ==
              if Small(a) < Small(b) || (Small(a) == Small(b) && 'a' as int <= a) then -1 else 1
    decreases |p|
  {
    var u, v := p + [a] + x, p + [b] + y;
    if p != [] {
      assert u[1..] == p[1..] + [a] + x && v[1..] == p[1..] + [b] + y;
      FirstDifferenceDecides(p[1..], a, x, b, y);
    }
  }

  /** Without a difference the shorter name comes first. */
  lemma {:induction false} PrefixComesFirst(p: Name, b: Byte, y: Name)
    ensures Cmp(p, p + [b] + y) == -1
    decreases |p|
  {
    if p != [] {
      assert (p + [b] + y)[1..] == p[1..] + [b] + y;
      PrefixComesFirst(p[1..], b, y);
    }
  }

  /** So case can outweigh later letters: "aZ" comes before "Ab". */
  lemma CaseBeforeLaterLetters()
    ensures Cmp(['a' as int, 'Z' as int], ['A' as int, 'b' as int]) == -1
  {
    FirstDifferenceDecides([], 'a' as int, ['Z' as int], 'A' as int, ['b' as int]);
    assert [] + ['a' as int] + ['Z' as int] == ['a' as int, 'Z' as int];
    assert [] + ['A' as int] + ['b' as int] == ['A' as int, 'b' as int];
  }

  /** _ffdirscan_filename_cmpz on the NUL-terminated strings at `a[p]` and `b[q]`. */
  method Compare(a: seq<Byte>, p: nat, b: seq<Byte>, q: nat) returns (r: int)
    requires Terminated(a, p) && Terminated(b, q)
    ensures r == Cmp(NameAt(a, p), NameAt(b, q))
  {
    var i := 0;
    while true
      invariant Terminated(a, p + i) && Terminated(b, q + i)
      invariant Cmp(NameAt(a, p + i), NameAt(b, q + i)) == Cmp(NameAt(a, p), NameAt(b, q))
      decreases |a| - p - i
    {
      var cl, cr := a[p + i], b[q + i];
      if cl != cr {
        r := CompareBytes(cl, cr);
        return;
      } else if cl == 0 {
        return 0;
      }
      i := i + 1;
    }
  }

  /** The case of two different bytes; a terminator comes first. */
  method CompareBytes(a: Byte, b: Byte) returns (r: int)
    requires a != b
    ensures r == if Rank(a) < Rank(b) then -1 else 1
    ensures a == 0 ==> r == -1
    ensures b == 0 ==> r == 1
  {
    var cl, cr := Fold(a), Fold(b);
    if cl < cr {
      return -1;
    } else if cl > cr {
      return 1;
    }
    if a < b {
      return 1;
    }
    return -1;
  }

  // ----- sorted lists

  ghost predicate Sorted(ns: seq<Name>) {
    forall i, j :: 0 <= i < j < |ns| ==> Cmp(ns[i], ns[j]) <= 0
  }

  lemma FirstIsLeast(a: seq<Name>, x: Name)
    requires Sorted(a) && x in a
    ensures Cmp(a[0], x) <= 0
  {
    CmpZeroIffEqual(a[0], a[0]);
    var i :| 0 <= i < |a| && a[i] == x;
  }

  lemma SameFirst(a: seq<Name>, b: seq<Name>)
    requires Sorted(a) && Sorted(b) && a != [] && b != [] && a[0] in b && b[0] in a
    ensures a[0] == b[0]
  {
    FirstIsLeast(a, b[0]);
    FirstIsLeast(b, a[0]);
    CmpAntisymmetric(a[0], b[0]);
    CmpZeroIffEqual(a[0], b[0]);
  }

  lemma TailMultiset<T>(a: seq<T>)
    requires a != []
    ensures multiset(a[1..]) == multiset(a) - multiset{a[0]}
    ensures a[0] in multiset(a)
  {
    assert a == [a[0]] + a[1..];
  }

  /** There is only one sorted arrangement of given names. */
  lemma {:induction false} SortedIsUnique(a: seq<Name>, b: seq<Name>)
    requires Sorted(a) && Sorted(b) && multiset(a) == multiset(b)
    ensures a == b
  {
    assert |multiset(a)| == |a| && |multiset(b)| == |b|;
    if a != [] {
      TailMultiset(a);
      TailMultiset(b);
      SameFirst(a, b);
      SortedIsUnique(a[1..], b[1..]);
      assert a == [a[0]] + a[1..] && b == [b[0]] + b[1..];
    }
  }
}
