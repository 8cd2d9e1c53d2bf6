/** What normalisation guarantees without disk letters: meaning kept, and a canonical form. */
module PathTheorems {
  import opened Basics
  import opened PathSyntax
  import opened PathNormal

  // ----- the form of the output

  /** No empty or "." component after the first, and ".." only in a run from the start. */
  ghost predicate Canon(st: seq<Seg>) {
    forall i :: 1 <= i < |st| ==>
      && st[i].name != "" && st[i].name != "."
      && (st[i].name == ".." ==> st[i - 1].name == "..")
  }

  /** Only real names. */
  ghost predicate Plain(st: seq<Seg>) {
    forall i :: 0 <= i < |st| ==> st[i].name != "" && st[i].name != "." && st[i].name != ".."
  }

  /** Separators are the forced one, if there is one. */
  ghost predicate Forced(c: Config, st: seq<Seg>) {
    forall i :: 0 <= i < |st| ==> Ending(c, st[i].end) == st[i].end
  }

  lemma StepForm(c: Config, st: seq<Seg>, m: Mode, g: Seg)
    requires Canon(st) && Forced(c, st) && (st != [] ==> m.simplify)
    requires c.simple ==> Plain(st) && m.simplify
    ensures Canon(StepStack(c, st, m, g)) && Forced(c, StepStack(c, st, m, g))
    ensures c.simple ==> Plain(StepStack(c, st, m, g))
    ensures NextMode(m, g.name).simplify
  {
  }

  lemma {:induction false} FoldForm(c: Config, st: seq<Seg>, m: Mode, segs: seq<Seg>)
    requires Canon(st) && Forced(c, st) && (st != [] ==> m.simplify)
    requires c.simple ==> Plain(st) && m.simplify
    ensures Canon(FoldStack(c, st, m, segs)) && Forced(c, FoldStack(c, st, m, segs))
    ensures c.simple ==> Plain(FoldStack(c, st, m, segs))
    decreases |segs|
  {
    if segs != [] {
      StepForm(c, st, m, segs[0]);
      FoldForm(c, StepStack(c, st, m, segs[0]), NextMode(m, segs[0].name), segs[1..]);
    }
  }

  lemma {:induction false} DotDotRun(st: seq<Seg>, i: nat)
    requires Canon(st) && i < |st| && st[i].name == ".."
    ensures forall j :: 0 <= j <= i ==> st[j].name == ".."
  {
    if i > 0 {
      DotDotRun(st, i - 1);
    }
  }

  /** The components of the result: none empty or "." after the first, ".." only in a leading run and never
      below an absolute root; with SIMPLE only real names and no leading separator. */
  lemma OutputForm(c: Config, src: string)
    requires ForcedInSplit(c)
    ensures var out := Segments(Normal(c, src), c.seps);
            && (forall i :: 1 <= i < |out| ==> out[i].name != "" && out[i].name != ".")
            && (forall i, j :: 0 <= j <= i < |out| && out[i].name == ".." ==> out[j].name == "..")
            && (Absolute(Normal(c, src), c.seps) ==> forall i :: 0 <= i < |out| ==> out[i].name != "..")
            && (c.simple ==> Plain(out) && !Absolute(Normal(c, src), c.seps))
  {
    var out := NormalStack(c, src);
    NormalRefinesStack(c, src);
    FoldForm(c, [], FirstMode(c), Segments(src, c.seps));
    AbsoluteByFirst(out, c.seps);
    forall i, j | 0 <= j <= i < |out| && out[i].name == ".." ensures out[j].name == ".." {
      DotDotRun(out, i);
    }
  }

  /** `h` is input component `g` with its separator kept, or replaced by the forced one. */
  predicate Carries(c: Config, g: Seg, h: Seg) {
    && h.name == g.name
    && (h.end == "" <==> g.end == "")
    && (g.end != "" ==> h.end == if c.force.Some? then [c.force.value] else g.end)
  }

  ghost predicate AllCarried(c: Config, all: seq<Seg>, st: seq<Seg>) {
    forall i :: 0 <= i < |st| ==> exists g :: g in all && Carries(c, g, st[i])
  }

  lemma {:induction false} FoldCarries(c: Config, st: seq<Seg>, m: Mode, segs: seq<Seg>, all: seq<Seg>)
    requires AllCarried(c, all, st) && forall g :: g in segs ==> g in all
    ensures AllCarried(c, all, FoldStack(c, st, m, segs))
    decreases |segs|
  {
    if segs != [] {
      var st' := StepStack(c, st, m, segs[0]);
      assert segs[0] in all && Carries(c, segs[0], Seg(segs[0].name, Ending(c, segs[0].end)));
      FoldCarries(c, st', NextMode(m, segs[0].name), segs[1..], all);
    }
  }

  /** Every component of the result is one of the input, with its separator kept or, if one is forced, replaced. */
  lemma ComponentsFromInput(c: Config, src: string)
    requires ForcedInSplit(c)
    ensures AllCarried(c, Segments(src, c.seps), Segments(Normal(c, src), c.seps))
  {
    NormalRefinesStack(c, src);
    FoldCarries(c, [], FirstMode(c), Segments(src, c.seps), Segments(src, c.seps));
  }

  // ----- meaning

  /** An absolute path keeps its root component; a relative one never gets one. */
  ghost predicate Rooted(abs: bool, st: seq<Seg>) {
    if abs then st != [] && st[0].name == "" else st == [] || st[0].name != ""
  }

  lemma WalkTop(at: Location, st: seq<Seg>)
    requires st != []
    ensures Walk(at, st) == Enter(Walk(at, st[..|st| - 1]), st[|st| - 1].name)
  {
    assert st == st[..|st| - 1] + [st[|st| - 1]];
    WalkConcat(at, st[..|st| - 1], [st[|st| - 1]]);
  }

  lemma UpMeaning(c: Config, st: seq<Seg>, at: Location, abs: bool, g: Seg)
    requires !c.disk && Canon(st) && Rooted(abs, st) && (abs ==> at == []) && st != [] && g.name == ".."
    ensures var a := UpStack(c, st);
            var st' := st[..a.keep] + if a.write then [Seg(g.name, Ending(c, g.end))] else [];
            Walk(at, st') == Enter(Walk(at, st), g.name) && Rooted(abs, st')
  {
    var a, top := UpStack(c, st), Seg(g.name, Ending(c, g.end));
    WalkTop(at, st);
    match Up(c, |st| == 1, st[|st| - 1].name)
    case Append =>
      assert st[..|st|] == st;
      WalkConcat(at, st, [top]);
    case Replace =>
      assert st[..0] == [] && st[..0] + [top] == [top];
    case Stay =>
      assert st[..|st|] + [] == st;
    case Pop =>
      assert st[..a.keep] + [] == st[..a.keep];
  }

  lemma StepMeaning(c: Config, st: seq<Seg>, m: Mode, g: Seg, at: Location, abs: bool)
    requires !c.simple && !c.disk && m.simplify && !m.skipDisk
    requires Canon(st) && Rooted(abs, st) && (abs ==> at == [])
    ensures Walk(at, StepStack(c, st, m, g)) == Enter(Walk(at, st), g.name)
    ensures Rooted(abs, StepStack(c, st, m, g))
  {
    var top := Seg(g.name, Ending(c, g.end));
    assert st[..|st|] == st && st + [] == st;
    if Skipped(m, g.name) {
    } else if g.name == ".." && st != [] {
      UpMeaning(c, st, at, abs, g);
    } else {
      WalkConcat(at, st, [top]);
    }
  }

  lemma {:induction false} FoldMeaning(c: Config, st: seq<Seg>, m: Mode, segs: seq<Seg>, at: Location, abs: bool)
    requires !c.simple && !c.disk && m.simplify && !m.skipDisk
    requires Canon(st) && Forced(c, st) && Rooted(abs, st) && (abs ==> at == [])
    ensures Walk(at, FoldStack(c, st, m, segs)) == Walk(Walk(at, st), segs)
    ensures Rooted(abs, FoldStack(c, st, m, segs))
    decreases |segs|
  {
    if segs != [] {
      StepMeaning(c, st, m, segs[0], at, abs);
      StepForm(c, st, m, segs[0]);
      FoldMeaning(c, StepStack(c, st, m, segs[0]), NextMode(m, segs[0].name), segs[1..], at, abs);
    }
  }

  lemma FirstComponent(c: Config, g: Seg, at: Location)
    requires !c.simple && !c.disk
    ensures var first := StepStack(c, [], FirstMode(c), g);
            && first == [Seg(g.name, Ending(c, g.end))] && Walk(at, first) == Enter(at, g.name)
            && Canon(first) && Forced(c, first) && Rooted(g.name == "", first)
    ensures NextMode(FirstMode(c), g.name) == Mode(true, false)
  {
    WalkOne(at, Seg(g.name, Ending(c, g.end)));
  }

  /** The stack leads where the input leads, from the root if the first component is empty. */
  lemma StackMeaning(c: Config, segs: seq<Seg>, at: Location)
    requires !c.simple && !c.disk && segs != [] && (segs[0].name == "" ==> at == [])
    ensures Walk(at, FoldStack(c, [], FirstMode(c), segs)) == Walk(at, segs)
    ensures Rooted(segs[0].name == "", FoldStack(c, [], FirstMode(c), segs))
  {
    FirstComponent(c, segs[0], at);
    FoldMeaning(c, StepStack(c, [], FirstMode(c), segs[0]), Mode(true, false), segs[1..], at, segs[0].name == "");
  }

  /** Normalising keeps the meaning of a path: from every current directory both lead to the same place. */
  lemma MeaningPreserved(c: Config, cwd: Location, src: string)
    requires ForcedInSplit(c) && !c.simple && !c.disk
    ensures Resolve(cwd, Normal(c, src), c.seps) == Resolve(cwd, src, c.seps)
  {
    var segs, out := Segments(src, c.seps), NormalStack(c, src);
    RenderOfSegments(src, c.seps);
    NormalRefinesStack(c, src);
    AbsoluteByFirst(segs, c.seps);
    AbsoluteByFirst(out, c.seps);
    if segs != [] {
      StackMeaning(c, segs, if segs[0].name == "" then [] else cwd);
    }
  }

  /** Under the flags a caller can pass, normalising keeps the meaning of every path if and only if it is
      not asked to write backslashes while splitting by slash alone. */
  lemma MeaningPreservedIff(f: Flags, windows: bool)
    requires !Settings(f, windows).simple && !Settings(f, windows).disk
    ensures (forall cwd, src :: Resolve(cwd, Normal(Settings(f, windows), src), Settings(f, windows).seps)
                                == Resolve(cwd, src, Settings(f, windows).seps))
            <==> !(f.forceBackslash && !f.forceSlash && !f.slashBackslash && (f.slashOnly || !windows))
  {
    var c := Settings(f, windows);
    ForcedInSplitByFlags(f, windows);
    if ForcedInSplit(c) {
      forall cwd, src ensures Resolve(cwd, Normal(c, src), c.seps) == Resolve(cwd, src, c.seps) {
        MeaningPreserved(c, cwd, src);
      }
    } else {
      BackslashLosesComponents(c);
      assert Resolve([], Normal(c, "a/b"), c.seps) != Resolve([], "a/b", c.seps);
    }
  }

  /** "a/b" becomes the single component "a\b". */
  lemma BackslashLosesComponents(c: Config)
    requires c.seps == {'/'} && c.force == Some('\\') && !c.simple && !c.disk
    ensures Normal(c, "a/b") == "a\\b"
    ensures Resolve([], "a/b", c.seps) == ["a", "b"]
    ensures Resolve([], "a\\b", c.seps) == ["a\\b"]
  {
    var a, b := Seg("a", "/"), Seg("b", "");
    FirstSepIs("a/b", c.seps, 1);
    FirstSepIs("b", c.seps, 1);
    FirstSepIs("a\\b", c.seps, 3);
    assert "a/b"[..1] == "a" && "a/b"[2..] == "b";
    assert Segments("b", c.seps) == [b];
    assert Segments("a/b", c.seps) == [a, b];
    assert StepBytes(c, "", Mode(false, false), a) == "a\\";
    assert StepBytes(c, "a\\", Mode(true, false), b) == "a\\b";
    assert [a, b][1..] == [b] && [b][1..] == [];
    assert FoldBytes(c, "a\\", Mode(true, false), [b]) == FoldBytes(c, "a\\b", Mode(true, false), []);
    var root: Location := [];
    assert Enter(root, "a") == ["a"] && Enter(["a"], "b") == ["a", "b"] && Enter(root, "a\\b") == ["a\\b"];
    WalkConcat(root, [a], [b]);
    WalkOne(root, a);
    WalkOne(["a"], b);
    WalkOne(root, Seg("a\\b", ""));
  }

  // ----- SIMPLE

  function Names(st: seq<Seg>): (ns: seq<string>)
    ensures |ns| == |st| && forall i :: 0 <= i < |st| ==> ns[i] == st[i].name
  {
    seq(|st|, i requires 0 <= i < |st| => st[i].name)
  }

  lemma StepSimple(c: Config, st: seq<Seg>, m: Mode, g: Seg)
    requires c.simple && !c.disk && m.simplify && !m.skipDisk && Plain(st)
    ensures Names(StepStack(c, st, m, g)) == Enter(Names(st), g.name)
  {
  }

  lemma {:induction false} FoldSimple(c: Config, st: seq<Seg>, m: Mode, segs: seq<Seg>)
    requires c.simple && !c.disk && m.simplify && !m.skipDisk && Plain(st) && Canon(st) && Forced(c, st)
    ensures Names(FoldStack(c, st, m, segs)) == Walk(Names(st), segs)
    decreases |segs|
  {
    if segs != [] {
      StepSimple(c, st, m, segs[0]);
      StepForm(c, st, m, segs[0]);
      FoldSimple(c, StepStack(c, st, m, segs[0]), NextMode(m, segs[0].name), segs[1..]);
    }
  }

  /** With SIMPLE the components of the result are exactly the place the input leads to from the root. */
  lemma SimpleIsResolvedFromRoot(c: Config, src: string)
    requires ForcedInSplit(c) && c.simple && !c.disk
    ensures Names(Segments(Normal(c, src), c.seps)) == Resolve([], src, c.seps)
  {
    NormalRefinesStack(c, src);
    FoldSimple(c, [], FirstMode(c), Segments(src, c.seps));
  }

  lemma {:induction false} PlainWalk(at: Location, st: seq<Seg>)
    requires Plain(st)
    ensures Walk(at, st) == at + Names(st)
    decreases |st|
  {
    if st != [] {
      PlainWalk(Enter(at, st[0].name), st[1..]);
    }
  }

  /** A rendering whose top segment is open ends with the last character of that segment's name. */
  lemma LastCharacter(segs: seq<Seg>)
    requires segs != []
    ensures var out, g := Render(segs), segs[|segs| - 1];
            && (g.end == "" && g.name != "" ==> out != "" && out[|out| - 1] == g.name[|g.name| - 1])
  {
    RenderTop(segs);
  }

  /** A path ending in a separator has no open component. */
  lemma EndsClosed(segs: seq<Seg>, seps: set<char>, base: string, sep: char)
    requires Proper(segs, seps) && Render(segs) == base + [sep] && sep in seps
    ensures AllClosed(segs, seps)
  {
    LastCharacter(segs);
    assert (base + [sep])[|base|] == sep;
    assert Closed(segs[|segs| - 1], seps);
    forall i | 0 <= i < |segs| - 1 ensures Closed(segs[i], seps) {
      assert segs[i] == segs[..|segs| - 1][i];
    }
  }

  lemma ProperConcat(a: seq<Seg>, b: seq<Seg>, seps: set<char>)
    requires AllClosed(a, seps) && Proper(b, seps)
    ensures Proper(a + b, seps)
  {
    var all := a + b;
    forall i | 0 <= i < |all| - 1 ensures Closed(all[i], seps) {
      assert i >= |a| ==> all[i] == b[..|b| - 1][i - |a|];
    }
  }

  lemma SegmentsAfterSep(base: string, sep: char, rest: string, seps: set<char>)
    requires sep in seps
    ensures Segments(base + [sep] + rest, seps) == Segments(base + [sep], seps) + Segments(rest, seps)
  {
    var a, b := Segments(base + [sep], seps), Segments(rest, seps);
    RenderOfSegments(base + [sep], seps);
    RenderOfSegments(rest, seps);
    EndsClosed(a, seps, base, sep);
    ProperConcat(a, b, seps);
    RenderConcat(a, b);
    SegmentsOfRender(a + b, seps);
  }

  /** Appending a SIMPLE result to any base directory stays under that directory. */
  lemma SimpleStaysUnderBase(c: Config, src: string, cwd: Location, base: string, sep: char)
    requires ForcedInSplit(c) && c.simple && sep in c.seps && base != ""
    ensures Resolve(cwd, base + [sep] + Normal(c, src), c.seps) ==
              Resolve(cwd, base + [sep], c.seps) + Names(Segments(Normal(c, src), c.seps))
  {
    var out := Normal(c, src);
    OutputForm(c, src);
    SegmentsAfterSep(base, sep, out, c.seps);
    var at := if Absolute(base, c.seps) then [] else cwd;
    WalkConcat(at, Segments(base + [sep], c.seps), Segments(out, c.seps));
    PlainWalk(Walk(at, Segments(base + [sep], c.seps)), Segments(out, c.seps));
  }
}
