/** ffpath_normalize: one pass over the input, writing and rescanning the caller's buffer. */
module PathNormalize {
  import opened PathSyntax
  import opened PathNormal
  import opened PathFlags

  /** What ".." does to the component `prev` before it; `alone` says no separator precedes that. */
  method Judge(c: Config, alone: bool, prev: string) returns (v: Verdict)
    ensures v == Up(c, alone, prev)
  {
    if alone {
      if prev == "." {
        return Replace;
      } else if prev == ".." {
        return Append;
      } else if |prev| == 0 {
        return Stay;
      } else if c.disk && prev[|prev| - 1] == ':' {
        return Stay;
      } else {
        return Pop;
      }
    } else {
      if prev == ".." {
        return Append;
      } else {
        return Pop;
      }
    }
  }

  /** ".." with something in the buffer: scan back for the component before it. */
  method GoUp(dst: array<char>, k: nat, c: Config) returns (keep: nat, write: bool)
    requires 0 < k <= dst.Length
    ensures Action(keep, write) == UpBytes(c, dst[..k])
  {
    ghost var out := dst[..k];
    var body := dst[..k - 1];
    assert out[..k - 1] == body;
    var slash := LastSep(body, c.seps);
    var prev := body[slash + 1..];
    assert out[slash + 1..k - 1] == prev;
    var v := Judge(c, slash < 0, prev);
    match v
    case Append => keep, write := k, true;
    case Replace => keep, write := 0, true;
    case Stay => keep, write := k, false;
    case Pop => keep, write := slash + 1, false;
  }

  /** What to do with one component: how much of `dst[..k]` to keep, and whether to write the component. */
  method Decide(dst: array<char>, k: nat, part: string, c: Config, simplify0: bool, skipDisk0: bool)
    returns (keep: nat, write: bool, simplify: bool, skipDisk: bool)
    requires k <= dst.Length
    ensures Action(keep, write) == DecideBytes(c, dst[..k], Mode(simplify0, skipDisk0), part)
    ensures Mode(simplify, skipDisk) == NextMode(Mode(simplify0, skipDisk0), part)
  {
    keep, write, simplify, skipDisk := k, false, simplify0, skipDisk0;
    if simplify {
      if part == "" || part == "." {
        return;
      }
      if skipDisk {
        skipDisk := false;
        if part[|part| - 1] == ':' {
          return;
        }
      }
    } else {
      simplify := true;
    }
    if part == ".." {
      if k != 0 {
        keep, write := GoUp(dst, k, c);
      } else {
        write := !c.simple;
      }
    } else {
      write := true;
    }
  }

  /** Write a component and its separator at `k`. */
  method Put(dst: array<char>, k: nat, part: string, sep: string, c: Config) returns (k': nat)
    requires k + |part| + |sep| <= dst.Length && |sep| <= 1
    modifies dst
    ensures k' == k + |part| + |sep|
    ensures dst[..k'] == old(dst[..k]) + part + Ending(c, sep)
    ensures forall i :: k' <= i < dst.Length ==> dst[i] == old(dst[i])
  {
    forall i | 0 <= i < |part| {
      dst[k + i] := part[i];
    }
    k' := k + |part|;
    if sep != "" {
      dst[k'] := Ending(c, sep)[0];
      k' := k' + 1;
    }
  }

  /** One component off the front: the part, the separator that ends it, and the rest. */
  method Split(s: string, seps: set<char>) returns (part: string, sep: string, rest: string)
    requires s != ""
    ensures |rest| < |s| && |sep| <= 1
    ensures Segments(s, seps) == [Seg(part, sep)] + Segments(rest, seps)
  {
    var pos := FirstSep(s, seps);
    if pos < |s| {
      part, sep, rest := s[..pos], [s[pos]], s[pos + 1..];
    } else {
      part, sep, rest := s, "", "";
    }
    SegmentsSplit(s, seps);
  }

  lemma SegmentsSplit(s: string, seps: set<char>)
    requires s != ""
    ensures var p := FirstSep(s, seps);
            Segments(s, seps) == if p < |s| then [Seg(s[..p], [s[p]])] + Segments(s[p + 1..], seps)
                                 else [Seg(s, "")] + Segments("", seps)
  {
    assert [Seg(s, "")] + [] == [Seg(s, "")];
  }

  lemma Unfold(c: Config, out: string, m: Mode, g: Seg, rest: seq<Seg>)
    ensures FoldBytes(c, out, m, [g] + rest) == FoldBytes(c, StepBytes(c, out, m, g), NextMode(m, g.name), rest)
    ensures var later := Room(c, StepBytes(c, out, m, g), NextMode(m, g.name), rest);
            Room(c, out, m, [g] + rest) ==
              if DecideBytes(c, out, m, g.name).write && |StepBytes(c, out, m, g)| > later
              then |StepBytes(c, out, m, g)| else later
  {
    assert ([g] + rest)[1..] == rest;
  }

  /** The loop body after the split: take in one component, unless it does not fit. */
  method Take(dst: array<char>, cap: nat, k: nat, part: string, sep: string, c: Config, simplify0: bool, skipDisk0: bool)
    returns (ok: bool, k': nat, simplify: bool, skipDisk: bool)
    requires k <= cap <= dst.Length && |sep| <= 1
    modifies dst
    ensures forall i :: cap <= i < dst.Length ==> dst[i] == old(dst[i])
    ensures Mode(simplify, skipDisk) == NextMode(Mode(simplify0, skipDisk0), part)
    ensures var m, out := Mode(simplify0, skipDisk0), old(dst[..k]);
            var out' := StepBytes(c, out, m, Seg(part, sep));
            && ok == !(DecideBytes(c, out, m, part).write && |out'| > cap)
            && (ok ==> k' <= cap && dst[..k'] == out')
  {
    ghost var out := dst[..k];
    var write;
    k', write, simplify, skipDisk := Decide(dst, k, part, c, simplify0, skipDisk0);
    assert out[..k'] == dst[..k'];
    ok := true;
    if write {
      if k' + |part| + |sep| > cap {
        ok := false;
      } else {
        k' := Put(dst, k', part, sep, c);
      }
    }
  }

  /** Writes nothing at or past `cap`. Fails exactly when some write would not fit, which cannot happen
      when the buffer is as long as the input; otherwise leaves the normal form in the buffer, which is as the
      flags say. */
  method Normalize(dst: array<char>, cap: nat, src: string, flags: Flags, windows: bool) returns (r: int)
    requires cap <= dst.Length
    modifies dst
    ensures forall i :: cap <= i < dst.Length ==> dst[i] == old(dst[i])
    ensures r == if Needed(Settings(flags, windows), src) <= cap then |Normal(Settings(flags, windows), src)| else -1
    ensures r >= 0 ==> r <= cap && dst[..r] == Normal(Settings(flags, windows), src)
    ensures r >= 0 ==> AsFlagsSay(flags, windows, src, dst[..r])
    ensures |src| <= cap ==> r >= 0
  {
    var c := Settings(flags, windows);
    NeverGrows(c, src);
    var k, s := 0, src;
    var simplify, skipDisk := c.simple, c.simple && c.disk;
    while s != ""
      invariant 0 <= k <= cap
      invariant forall i :: cap <= i < dst.Length ==> dst[i] == old(dst[i])
      invariant FoldBytes(c, dst[..k], Mode(simplify, skipDisk), Segments(s, c.seps)) == Normal(c, src)
      invariant Needed(c, src) <= cap <==> Room(c, dst[..k], Mode(simplify, skipDisk), Segments(s, c.seps)) <= cap
      decreases |s|
    {
      ghost var out, m := dst[..k], Mode(simplify, skipDisk);
      var part, sep, ok;
      part, sep, s := Split(s, c.seps);
      Unfold(c, out, m, Seg(part, sep), Segments(s, c.seps));
      ok, k, simplify, skipDisk := Take(dst, cap, k, part, sep, c, simplify, skipDisk);
      if !ok {
        return -1;
      }
    }
    NormalAsFlagsSay(flags, windows, src);
    r := k;
  }
}
