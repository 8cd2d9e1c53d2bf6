/** 32-bit millisecond clock values and the wrap-aware comparisons made on them. */
module WrapTime {
  const WORD: int := 0x1_0000_0000
  const HALF: int := 0x8000_0000

  type Word = x: int | 0 <= x < WORD

  /** The 32-bit reading of an unbounded point in time. */
  function Key(t: int): Word {
    t % WORD
  }

  /** Unsigned addition, wrapping at 2^32. */
  function Plus(w: Word, d: int): Word {
    (w + d) % WORD
  }

  /** The cast of an unsigned 32-bit difference to a signed 32-bit integer. */
  function Diff(a: Word, b: Word): int {
    var d := (a - b) % WORD;
    if d < HALF then d else d - WORD
  }

  function Abs(i: int): nat {
    if i < 0 then -i else i
  }

  function Max(a: int, b: int): int {
    if a < b then b else a
  }

  lemma KeyPlus(t: int, d: int)
    ensures Plus(Key(t), d) == Key(t + d)
  {
    assert t == WORD * (t / WORD) + t % WORD;
  }

  /** The signed 32-bit difference is the true one exactly on a half-open window of 2^32 ms. */
  lemma DiffIsTrueDifference(a: int, b: int)
    ensures Diff(Key(a), Key(b)) == a - b <==> -HALF <= a - b < HALF
  {
    assert a == WORD * (a / WORD) + a % WORD;
    assert b == WORD * (b / WORD) + b % WORD;
    assert (Key(a) - Key(b)) % WORD == (a - b) % WORD;
  }

  predicate SameEpoch(a: int, b: int) {
    a / WORD == b / WORD
  }

  /** Comparing two readings as plain unsigned words is right exactly inside one 2^32 epoch. */
  lemma UnsignedOrder(a: int, b: int)
    requires -WORD < a - b < WORD
    ensures SameEpoch(a, b) ==> (Key(a) < Key(b) <==> a < b) && (Key(a) == Key(b) <==> a == b)
    ensures !SameEpoch(a, b) ==> (Key(a) < Key(b) <==> b < a) && a != b && Key(a) != Key(b)
  {
    assert a == WORD * (a / WORD) + a % WORD;
    assert b == WORD * (b / WORD) + b % WORD;
  }
}
