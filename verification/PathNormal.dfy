/** Path normalisation: the code's decisions on its output buffer, and the component stack behind them. */
module PathNormal {
  import opened Basics
  import opened PathSyntax

  /** enum FFPATH_NORM, one field per bit. */
  datatype Flags = Flags(slashOnly: bool, slashBackslash: bool, forceSlash: bool, forceBackslash: bool,
                         simple: bool, diskLetter: bool, noDiskLetter: bool)

  /** The settings after platform defaults. */
  datatype Config = Config(seps: set<char>, force: Option<char>, simple: bool, disk: bool)

  function Settings(f: Flags, windows: bool): Config {
    Config(
      if f.slashBackslash || (windows && !f.slashOnly) then {'/', '\\'} else {'/'},
      if f.forceSlash then Some('/') else if f.forceBackslash then Some('\\') else None,
      f.simple,
      f.diskLetter || (windows && !f.noDiskLetter))
  }

  /** A forced separator, if any, is one the path is split by. */
  predicate ForcedInSplit(c: Config) {
    c.force.Some? ==> c.force.value in c.seps
  }

  lemma ForcedInSplitByFlags(f: Flags, windows: bool)
    ensures ForcedInSplit(Settings(f, windows)) <==>
              !(f.forceBackslash && !f.forceSlash && !f.slashBackslash && (f.slashOnly || !windows))
  {
  }

  function Ending(c: Config, end: string): string {
    if end == "" || c.force.None? then end else [c.force.value]
  }

  predicate EndsInColon(s: string) {
    s != "" && s[|s| - 1] == ':'
  }

  /** The two switches the loop carries along. */
  datatype Mode = Mode(simplify: bool, skipDisk: bool)

  function FirstMode(c: Config): Mode {
    Mode(c.simple, c.simple && c.disk)
  }

  /** Whether a component is passed over before ".." is looked at. */
  predicate Skipped(m: Mode, name: string) {
    m.simplify && (name == "" || name == "." || (m.skipDisk && EndsInColon(name)))
  }

  function NextMode(m: Mode, name: string): Mode {
    if m.simplify && (name == "" || name == ".") then m else Mode(true, if m.simplify then false else m.skipDisk)
  }

  /** Cut the output down to `keep`, then write the component there or not. */
  datatype Action = Action(keep: nat, write: bool)

  /** What ".." does to the component before it. */
  datatype Verdict = Append | Replace | Stay | Pop

  function Up(c: Config, alone: bool, prev: string): Verdict {
    if prev == ".." then Append
    else if !alone then Pop
    else if prev == "." then Replace
    else if prev == "" || (c.disk && EndsInColon(prev)) then Stay
    else Pop
  }

  // ----- the decision, on the bytes of the output buffer

  function LastSepUpTo(s: string, seps: set<char>, n: nat): (p: int)
    requires n <= |s|
    ensures -1 <= p < n
    ensures p >= 0 ==> s[p] in seps
    ensures forall i :: p < i < n ==> s[i] !in seps
  {
    if n == 0 then -1
    else if s[n - 1] in seps then n - 1
    else LastSepUpTo(s, seps, n - 1)
  }

  /** Position of the last separator, or -1. */
  function LastSep(s: string, seps: set<char>): int {
    LastSepUpTo(s, seps, |s|)
  }

  function DecideBytes(c: Config, out: string, m: Mode, name: string): (a: Action)
    ensures a.keep <= |out|
  {
    if Skipped(m, name) then Action(|out|, false)
    else if name != ".." then Action(|out|, true)
    else if out == "" then Action(0, !c.simple)
    else UpBytes(c, out)
  }

  function UpBytes(c: Config, out: string): (a: Action)
    requires out != ""
    ensures a.keep <= |out|
  {
    var slash := LastSep(out[..|out| - 1], c.seps);
    match Up(c, slash < 0, out[slash + 1..|out| - 1])
    case Append => Action(|out|, true)
    case Replace => Action(0, true)
    case Stay => Action(|out|, false)
    case Pop => Action(slash + 1, false)
  }

  function StepBytes(c: Config, out: string, m: Mode, g: Seg): string {
    var a := DecideBytes(c, out, m, g.name);
    out[..a.keep] + if a.write then g.name + Ending(c, g.end) else ""
  }

  function FoldBytes(c: Config, out: string, m: Mode, segs: seq<Seg>): string
    decreases |segs|
  {
    if segs == [] then out else FoldBytes(c, StepBytes(c, out, m, segs[0]), NextMode(m, segs[0].name), segs[1..])
  }

  /** The most room any write needs. */
  function Room(c: Config, out: string, m: Mode, segs: seq<Seg>): nat
    decreases |segs|
  {
    if segs == [] then 0
    else
      var out' := StepBytes(c, out, m, segs[0]);
      var rest := Room(c, out', NextMode(m, segs[0].name), segs[1..]);
      if DecideBytes(c, out, m, segs[0].name).write && |out'| > rest then |out'| else rest
  }

  function Normal(c: Config, src: string): string {
    FoldBytes(c, "", FirstMode(c), Segments(src, c.seps))
  }

  function Needed(c: Config, src: string): nat {
    Room(c, "", FirstMode(c), Segments(src, c.seps))
  }

  lemma {:induction false} FoldFits(c: Config, out: string, m: Mode, segs: seq<Seg>)
    requires forall i :: 0 <= i < |segs| ==> |segs[i].end| <= 1
    ensures |FoldBytes(c, out, m, segs)| <= |out| + |Render(segs)|
    ensures Room(c, out, m, segs) <= |out| + |Render(segs)|
    decreases |segs|
  {
    if segs != [] {
      FoldFits(c, StepBytes(c, out, m, segs[0]), NextMode(m, segs[0].name), segs[1..]);
    }
  }

  lemma {:induction false} EndsAreShort(s: string, seps: set<char>)
    ensures forall i :: 0 <= i < |Segments(s, seps)| ==> |Segments(s, seps)[i].end| <= 1
    decreases |s|
  {
    if s != "" && FirstSep(s, seps) < |s| {
      EndsAreShort(s[FirstSep(s, seps) + 1..], seps);
    }
  }

  /** Under any flags, the result is no longer than the input, and a buffer of the input's length suffices. */
  lemma NeverGrows(c: Config, src: string)
    ensures |Normal(c, src)| <= |src| && Needed(c, src) <= |src|
  {
    EndsAreShort(src, c.seps);
    FoldFits(c, "", FirstMode(c), Segments(src, c.seps));
    RenderOfSegments(src, c.seps);
  }

  // ----- the decision, on a stack of components

  function DecideStack(c: Config, st: seq<Seg>, m: Mode, name: string): (a: Action)
    ensures a.keep <= |st|
  {
    if Skipped(m, name) then Action(|st|, false)
    else if name != ".." then Action(|st|, true)
    else if st == [] then Action(0, !c.simple)
    else UpStack(c, st)
  }

  function UpStack(c: Config, st: seq<Seg>): (a: Action)
    requires st != []
    ensures a.keep <= |st|
  {
    match Up(c, |st| == 1, st[|st| - 1].name)
    case Append => Action(|st|, true)
    case Replace => Action(0, true)
    case Stay => Action(|st|, false)
    case Pop => Action(|st| - 1, false)
  }

  function StepStack(c: Config, st: seq<Seg>, m: Mode, g: Seg): seq<Seg> {
    var a := DecideStack(c, st, m, g.name);
    st[..a.keep] + if a.write then [Seg(g.name, Ending(c, g.end))] else []
  }

  function FoldStack(c: Config, st: seq<Seg>, m: Mode, segs: seq<Seg>): seq<Seg>
    decreases |segs|
  {
    if segs == [] then st else FoldStack(c, StepStack(c, st, m, segs[0]), NextMode(m, segs[0].name), segs[1..])
  }

  function NormalStack(c: Config, src: string): seq<Seg> {
    FoldStack(c, [], FirstMode(c), Segments(src, c.seps))
  }

  // ----- scanning the buffer backwards finds the top of the stack

  lemma LastSepIs(s: string, seps: set<char>, p: nat)
    requires p < |s| && s[p] in seps && SepFree(s[p + 1..], seps)
    ensures LastSep(s, seps) == p
  {
    assert forall i :: p < i < |s| ==> s[i] == s[p + 1..][i - p - 1];
  }

  lemma NoLastSep(s: string, seps: set<char>)
    requires SepFree(s, seps)
    ensures LastSep(s, seps) == -1
  {
  }

  lemma {:induction false} ClosedRenderEnds(st: seq<Seg>, seps: set<char>)
    requires AllClosed(st, seps) && st != []
    ensures Render(st) != "" && Render(st)[|Render(st)| - 1] in seps
  {
    if |st| > 1 {
      ClosedRenderEnds(st[1..], seps);
    } else {
      assert st == [st[0]];
      RenderOne(st[0]);
    }
  }

  lemma {:induction false} RenderSnoc(a: seq<Seg>, g: Seg)
    ensures Render(a + [g]) == Render(a) + (g.name + g.end)
  {
    if a == [] {
      RenderOne(g);
      assert a + [g] == [g];
    } else {
      assert (a + [g])[1..] == a[1..] + [g];
      RenderSnoc(a[1..], g);
    }
  }

  lemma RenderTop(st: seq<Seg>)
    requires st != []
    ensures Render(st) == Render(st[..|st| - 1]) + (st[|st| - 1].name + st[|st| - 1].end)
  {
    var a, g := st[..|st| - 1], st[|st| - 1];
    RenderSnoc(a, g);
    assert st == a + [g];
  }

  /** The last separator before a separator-free name. */
  lemma LastSepBefore(below: string, name: string, seps: set<char>)
    requires SepFree(name, seps) && (below != "" ==> below[|below| - 1] in seps)
    ensures LastSep(below + name, seps) == |below| - 1
  {
    var s := below + name;
    if below == "" {
      assert s == name;
      NoLastSep(s, seps);
    } else {
      assert s[|below|..] == name;
      LastSepIs(s, seps, |below| - 1);
    }
  }

  lemma BufferParts(below: string, name: string, end: string)
    requires |end| == 1
    ensures var out := below + (name + end);
            |out| == |below| + |name| + 1 && out[..|out| - 1] == below + name && out[|below|..|out| - 1] == name
  {
  }

  /** The buffer of a closed stack: what lies below the top, then the top's name and separator. */
  lemma TopOfBuffer(st: seq<Seg>, seps: set<char>)
    requires AllClosed(st, seps) && st != []
    ensures var out, below, top := Render(st), Render(st[..|st| - 1]), st[|st| - 1];
            && |out| == |below| + |top.name| + 1
            && LastSep(out[..|out| - 1], seps) == |below| - 1
            && out[|below|..|out| - 1] == top.name
            && (|st| == 1 <==> below == "")
  {
    var below, top := Render(st[..|st| - 1]), st[|st| - 1];
    assert Closed(top, seps);
    RenderTop(st);
    BufferParts(below, top.name, top.end);
    if |st| > 1 {
      ClosedRenderEnds(st[..|st| - 1], seps);
    }
    LastSepBefore(below, top.name, seps);
  }

  lemma {:induction false} RenderPrefix(st: seq<Seg>, n: nat)
    requires n <= |st|
    ensures |Render(st[..n])| <= |Render(st)| && Render(st)[..|Render(st[..n])|] == Render(st[..n])
  {
    assert st == st[..n] + st[n..];
    RenderConcat(st[..n], st[n..]);
  }

  lemma UpAgrees(c: Config, st: seq<Seg>)
    requires AllClosed(st, c.seps) && st != []
    ensures UpBytes(c, Render(st)).write == UpStack(c, st).write
    ensures UpBytes(c, Render(st)).keep == |Render(st[..UpStack(c, st).keep])|
  {
    var out, below, top := Render(st), Render(st[..|st| - 1]), st[|st| - 1];
    TopOfBuffer(st, c.seps);
    var slash := LastSep(out[..|out| - 1], c.seps);
    assert Up(c, slash < 0, out[slash + 1..|out| - 1]) == Up(c, |st| == 1, top.name);
    match Up(c, |st| == 1, top.name)
    case Append => assert st[..|st|] == st;
    case Replace => assert st[..0] == [];
    case Stay => assert st[..|st|] == st;
    case Pop =>
  }

  /** On the rendering of a closed stack the byte decision is the stack decision. */
  lemma DecisionsAgree(c: Config, st: seq<Seg>, m: Mode, name: string)
    requires AllClosed(st, c.seps)
    ensures DecideBytes(c, Render(st), m, name).write == DecideStack(c, st, m, name).write
    ensures DecideBytes(c, Render(st), m, name).keep == |Render(st[..DecideStack(c, st, m, name).keep])|
  {
    assert st[..|st|] == st;
    if !Skipped(m, name) && name == ".." && st != [] {
      ClosedRenderEnds(st, c.seps);
      UpAgrees(c, st);
    }
  }

  lemma StepsAgree(c: Config, st: seq<Seg>, m: Mode, g: Seg)
    requires AllClosed(st, c.seps)
    ensures StepBytes(c, Render(st), m, g) == Render(StepStack(c, st, m, g))
  {
    DecisionsAgree(c, st, m, g.name);
    var b := DecideStack(c, st, m, g.name);
    RenderPrefix(st, b.keep);
    if b.write {
      RenderConcat(st[..b.keep], [Seg(g.name, Ending(c, g.end))]);
      RenderOne(Seg(g.name, Ending(c, g.end)));
    } else {
      assert st[..b.keep] + [] == st[..b.keep];
    }
  }

  lemma StepStaysClosed(c: Config, st: seq<Seg>, m: Mode, g: Seg)
    requires ForcedInSplit(c) && AllClosed(st, c.seps) && Closed(g, c.seps)
    ensures AllClosed(StepStack(c, st, m, g), c.seps)
  {
  }

  /** An open last component leaves the stack closed up to an open top. */
  lemma StepStaysProper(c: Config, st: seq<Seg>, m: Mode, g: Seg)
    requires ForcedInSplit(c) && AllClosed(st, c.seps) && Proper([g], c.seps)
    ensures Proper(StepStack(c, st, m, g), c.seps)
  {
    var st' := StepStack(c, st, m, g);
    var a := DecideStack(c, st, m, g.name);
    assert [g][0] == g;
    if a.write {
      assert st'[..|st'| - 1] == st[..a.keep];
    }
  }

  /** The code refines the component stack, and its output splits into exactly the stack. */
  lemma {:induction false} FoldsAgree(c: Config, st: seq<Seg>, m: Mode, segs: seq<Seg>)
    requires ForcedInSplit(c) && AllClosed(st, c.seps) && Proper(segs, c.seps)
    ensures FoldBytes(c, Render(st), m, segs) == Render(FoldStack(c, st, m, segs))
    ensures Proper(FoldStack(c, st, m, segs), c.seps)
    decreases |segs|
  {
    if segs != [] {
      var st', m' := StepStack(c, st, m, segs[0]), NextMode(m, segs[0].name);
      ProperTail(segs, c.seps);
      StepsAgree(c, st, m, segs[0]);
      if |segs| == 1 {
        assert segs == [segs[0]] && segs[1..] == [];
        StepStaysProper(c, st, m, segs[0]);
        assert FoldStack(c, st', m', []) == st' && FoldBytes(c, Render(st'), m', []) == Render(st');
      } else {
        StepStaysClosed(c, st, m, segs[0]);
        FoldsAgree(c, st', m', segs[1..]);
      }
    }
  }

  lemma NormalRefinesStack(c: Config, src: string)
    requires ForcedInSplit(c)
    ensures Normal(c, src) == Render(NormalStack(c, src))
    ensures Proper(NormalStack(c, src), c.seps)
    ensures Segments(Normal(c, src), c.seps) == NormalStack(c, src)
  {
    RenderOfSegments(src, c.seps);
    FoldsAgree(c, [], FirstMode(c), Segments(src, c.seps));
    SegmentsOfRender(NormalStack(c, src), c.seps);
  }
}
