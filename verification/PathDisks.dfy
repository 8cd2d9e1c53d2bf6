/** What disk letters change: meaning on drives, SIMPLE with a drive, and idempotence. */
module PathDisks {
  import opened Basics
  import opened PathSyntax
  import opened PathNormal
  import opened PathTheorems

  // ----- disk letters

  ghost predicate NoColons(segs: seq<Seg>) {
    forall i :: 0 <= i < |segs| ==> !EndsInColon(segs[i].name)
  }

  lemma StepNoColons(c: Config, st: seq<Seg>, m: Mode, m': Mode, g: Seg)
    requires NoColons(st) && !EndsInColon(g.name) && m.simplify == m'.simplify
    ensures StepStack(c, st, m, g) == StepStack(c.(disk := false), st, m', g)
    ensures NoColons(StepStack(c, st, m, g))
    ensures NextMode(m, g.name).simplify == NextMode(m', g.name).simplify
  {
  }

  lemma {:induction false} FoldNoColons(c: Config, st: seq<Seg>, m: Mode, m': Mode, segs: seq<Seg>)
    requires NoColons(st) && NoColons(segs) && m.simplify == m'.simplify
    ensures FoldStack(c, st, m, segs) == FoldStack(c.(disk := false), st, m', segs)
    decreases |segs|
  {
    if segs != [] {
      StepNoColons(c, st, m, m', segs[0]);
      FoldNoColons(c, StepStack(c, st, m, segs[0]), NextMode(m, segs[0].name), NextMode(m', segs[0].name), segs[1..]);
    }
  }

  /** Disk-letter handling makes no difference to a path without a component ending in a colon. */
  lemma NoColonNoDisk(c: Config, src: string)
    requires ForcedInSplit(c) && NoColons(Segments(src, c.seps))
    ensures Normal(c, src) == Normal(c.(disk := false), src)
  {
    NormalRefinesStack(c, src);
    NormalRefinesStack(c.(disk := false), src);
    FoldNoColons(c, [], FirstMode(c), FirstMode(c.(disk := false)), Segments(src, c.seps));
  }

  /** One step on a stack with drive `d` at the bottom and real names above it. */
  lemma StepOnDrive(c: Config, d: Seg, names: seq<Seg>, m: Mode, g: Seg) returns (names': seq<Seg>)
    requires c.disk && m.simplify && !m.skipDisk && EndsInColon(d.name) && Plain(names)
    ensures StepStack(c, [d] + names, m, g) == [d] + names' && Plain(names')
    ensures Names(names') == Enter(Names(names), g.name)
  {
    var st, top := [d] + names, Seg(g.name, Ending(c, g.end));
    assert st[..|st|] == st;
    if Skipped(m, g.name) {
      names' := names;
    } else if g.name != ".." {
      names' := names + [top];
    } else if names == [] {
      assert UpStack(c, st) == Action(1, false);
      names' := names;
    } else {
      assert st[|st| - 1] == names[|names| - 1];
      names' := names[..|names| - 1];
      assert st[..|st| - 1] == [d] + names';
    }
  }

  lemma {:induction false} FoldOnDrive(c: Config, d: Seg, names: seq<Seg>, m: Mode, segs: seq<Seg>) returns (names': seq<Seg>)
    requires c.disk && m.simplify && !m.skipDisk && EndsInColon(d.name) && Plain(names)
    ensures FoldStack(c, [d] + names, m, segs) == [d] + names' && Plain(names')
    ensures Names(names') == Walk(Names(names), segs)
    decreases |segs|
  {
    if segs == [] {
      names' := names;
    } else {
      var next := StepOnDrive(c, d, names, m, segs[0]);
      names' := FoldOnDrive(c, d, next, NextMode(m, segs[0].name), segs[1..]);
    }
  }

  /** A leading component ending in a colon is a root: it stays, and what follows is resolved below it without
      ever leaving it. */
  lemma DriveIsRoot(c: Config, src: string)
    requires ForcedInSplit(c) && c.disk && !c.simple
    requires src != "" && EndsInColon(Segments(src, c.seps)[0].name)
    ensures Names(Segments(Normal(c, src), c.seps)) ==
              [Segments(src, c.seps)[0].name] + Walk([], Segments(src, c.seps)[1..])
  {
    var segs := Segments(src, c.seps);
    var d := Seg(segs[0].name, Ending(c, segs[0].end));
    NormalRefinesStack(c, src);
    assert StepStack(c, [], FirstMode(c), segs[0]) == [d] + [];
    var names := FoldOnDrive(c, d, [], Mode(true, false), segs[1..]);
    assert Names([d] + names) == [d.name] + Names(names);
  }

  // ----- meaning where a leading component ending in a colon is a drive

  /** A drive, or none, and a location below it. */
  datatype Place = Place(drive: string, at: Location)

  /** Where a path leads if a leading component ending in a colon names a drive. */
  function ResolveOnDrive(cwd: Place, path: string, seps: set<char>): Place {
    var segs := Segments(path, seps);
    if segs != [] && EndsInColon(segs[0].name) then Place(segs[0].name, Walk([], segs[1..]))
    else Place(cwd.drive, Resolve(cwd.at, path, seps))
  }

  predicate IsName(name: string) {
    name != "" && name != "." && name != ".."
  }

  /** With `depth` names before them, these components cancel those names out and then bring one that ends in a
      colon to the front. */
  predicate BringsUp(segs: seq<Seg>, depth: nat)
    decreases |segs|
  {
    segs != [] &&
    var name := segs[0].name;
    if IsName(name) then (depth == 0 && EndsInColon(name)) || BringsUp(segs[1..], depth + 1)
    else if name == ".." then depth > 0 && BringsUp(segs[1..], depth - 1)
    else BringsUp(segs[1..], depth)
  }

  /** A relative path in which a later component takes the place of a drive. */
  predicate DriveSurfaces(segs: seq<Seg>) {
    segs != [] && IsName(segs[0].name) && !EndsInColon(segs[0].name) && BringsUp(segs[1..], 1)
  }

  /** The bottom component stays for good: a root, a leading dot or a leading dot-dot. */
  predicate Anchored(st: seq<Seg>) {
    st != [] && !IsName(st[0].name)
  }

  ghost predicate Relative(st: seq<Seg>) {
    Plain(st) && (st != [] ==> !EndsInColon(st[0].name))
  }

  lemma StepSame(c: Config, st: seq<Seg>, g: Seg)
    requires st != [] ==> !EndsInColon(st[0].name)
    ensures StepStack(c, st, Mode(true, false), g) == StepStack(c.(disk := false), st, Mode(true, false), g)
  {
  }

  /** The first step is the same with and without disk letters. */
  lemma FoldSame(c: Config, st: seq<Seg>, segs: seq<Seg>)
    requires segs != [] && (st != [] ==> !EndsInColon(st[0].name))
    ensures var m, c', st' := Mode(true, false), c.(disk := false), StepStack(c, st, Mode(true, false), segs[0]);
            && FoldStack(c, st, m, segs) == FoldStack(c, st', m, segs[1..])
            && FoldStack(c', st, m, segs) == FoldStack(c', st', m, segs[1..])
  {
    StepSame(c, st, segs[0]);
  }

  lemma StepAnchored(c: Config, st: seq<Seg>, g: Seg)
    requires Anchored(st)
    ensures Anchored(StepStack(c, st, Mode(true, false), g))
  {
  }

  /** Below an anchor no component becomes leading, so disk letters make no difference. */
  lemma {:induction false} FoldAnchored(c: Config, st: seq<Seg>, segs: seq<Seg>)
    requires Anchored(st)
    ensures FoldStack(c, st, Mode(true, false), segs) == FoldStack(c.(disk := false), st, Mode(true, false), segs)
    ensures Anchored(FoldStack(c, st, Mode(true, false), segs))
    decreases |segs|
  {
    if segs != [] {
      FoldSame(c, st, segs);
      StepAnchored(c, st, segs[0]);
      FoldAnchored(c, StepStack(c, st, Mode(true, false), segs[0]), segs[1..]);
    }
  }

  /** One step on a stack of real names, none leading with a colon. */
  lemma StepRelative(c: Config, st: seq<Seg>, g: Seg) returns (st': seq<Seg>)
    requires !c.simple && Relative(st)
    ensures st' == StepStack(c, st, Mode(true, false), g)
    ensures if IsName(g.name) then |st'| == |st| + 1 && Plain(st') && (if st == [] then st'[0].name == g.name else Relative(st'))
            else if g.name != ".." then st' == st
            else if st == [] then Anchored(st')
            else |st'| == |st| - 1 && Relative(st')
  {
    st' := StepStack(c, st, Mode(true, false), g);
    assert st[..|st|] + [] == st;
  }

  lemma DriveLeads(c: Config, st: seq<Seg>, segs: seq<Seg>)
    requires c.disk && |st| == 1 && EndsInColon(st[0].name)
    ensures var out := FoldStack(c, st, Mode(true, false), segs);
            out != [] && EndsInColon(out[0].name)
  {
    var names := FoldOnDrive(c, st[0], [], Mode(true, false), segs);
    assert st == [st[0]] + [];
  }

  /** If nothing surfaces, disk letters make no difference; if something does, it leads the result. */
  lemma {:induction false} FoldRelative(c: Config, st: seq<Seg>, segs: seq<Seg>)
    requires c.disk && !c.simple && Relative(st)
    ensures var out := FoldStack(c, st, Mode(true, false), segs);
            if BringsUp(segs, |st|) then out != [] && EndsInColon(out[0].name)
            else out == FoldStack(c.(disk := false), st, Mode(true, false), segs)
                 && (out != [] ==> !EndsInColon(out[0].name))
    decreases |segs|
  {
    if segs != [] {
      var name := segs[0].name;
      var st' := StepRelative(c, st, segs[0]);
      FoldSame(c, st, segs);
      if IsName(name) && st == [] && EndsInColon(name) {
        DriveLeads(c, st', segs[1..]);
      } else if name == ".." && st == [] {
        FoldAnchored(c, st', segs[1..]);
      } else {
        FoldRelative(c, st', segs[1..]);
      }
    }
  }

  lemma StackNotLedByDrive(c: Config, segs: seq<Seg>)
    requires c.disk && !c.simple && segs != [] && !EndsInColon(segs[0].name)
    ensures var out := FoldStack(c, [], FirstMode(c), segs);
            if DriveSurfaces(segs) then out != [] && EndsInColon(out[0].name)
            else out == FoldStack(c.(disk := false), [], FirstMode(c), segs) && (out != [] ==> !EndsInColon(out[0].name))
  {
    var first := [Seg(segs[0].name, Ending(c, segs[0].end))];
    assert StepStack(c, [], FirstMode(c), segs[0]) == first == StepStack(c.(disk := false), [], FirstMode(c), segs[0]);
    if IsName(segs[0].name) {
      FoldRelative(c, first, segs[1..]);
    } else {
      FoldAnchored(c, first, segs[1..]);
    }
  }

  /** How a path that does not start with a drive comes out. */
  lemma NotLedByDrive(c: Config, src: string)
    requires ForcedInSplit(c) && c.disk && !c.simple && src != "" && !EndsInColon(Segments(src, c.seps)[0].name)
    ensures var segs, out := Segments(src, c.seps), Segments(Normal(c, src), c.seps);
            if DriveSurfaces(segs) then out != [] && EndsInColon(out[0].name)
            else Normal(c, src) == Normal(c.(disk := false), src) && (out != [] ==> !EndsInColon(out[0].name))
  {
    NormalRefinesStack(c, src);
    NormalRefinesStack(c.(disk := false), src);
    StackNotLedByDrive(c, Segments(src, c.seps));
  }

  lemma DriveMeaning(c: Config, cwd: Place, src: string)
    requires ForcedInSplit(c) && c.disk && !c.simple
    requires src != "" && EndsInColon(Segments(src, c.seps)[0].name)
    ensures ResolveOnDrive(cwd, Normal(c, src), c.seps) == ResolveOnDrive(cwd, src, c.seps)
  {
    var segs, out := Segments(src, c.seps), Segments(Normal(c, src), c.seps);
    DriveIsRoot(c, src);
    OutputForm(c, src);
    var names := Names(out);
    assert out[0].name == names[0] == segs[0].name;
    assert Names(out[1..]) == names[1..] == Walk([], segs[1..]);
    forall i | 0 <= i < |out[1..]| ensures out[1..][i].name != ".." {
      assert out[1..][i] == out[1 + i];
    }
    PlainWalk([], out[1..]);
  }

  /** With disk letters normalising keeps the meaning of a path, from every current place, if and only if the path
      does not bring a later component ending in a colon to the front. */
  lemma MeaningWithDrivesIff(c: Config, src: string)
    requires ForcedInSplit(c) && c.disk && !c.simple
    ensures (forall cwd :: ResolveOnDrive(cwd, Normal(c, src), c.seps) == ResolveOnDrive(cwd, src, c.seps))
            <==> !DriveSurfaces(Segments(src, c.seps))
  {
    var segs, c' := Segments(src, c.seps), c.(disk := false);
    if src == "" {
      NeverGrows(c, src);
    } else if EndsInColon(segs[0].name) {
      forall cwd ensures ResolveOnDrive(cwd, Normal(c, src), c.seps) == ResolveOnDrive(cwd, src, c.seps) {
        DriveMeaning(c, cwd, src);
      }
    } else {
      NotLedByDrive(c, src);
      if DriveSurfaces(segs) {
        var cwd := Place("", []);
        assert ResolveOnDrive(cwd, Normal(c, src), c.seps).drive != "";
        assert ResolveOnDrive(cwd, src, c.seps).drive == "";
      } else {
        forall cwd ensures ResolveOnDrive(cwd, Normal(c, src), c.seps) == ResolveOnDrive(cwd, src, c.seps) {
          MeaningPreserved(c', cwd.at, src);
        }
      }
    }
  }

  lemma FoldCons(c: Config, st: seq<Seg>, m: Mode, g: Seg, rest: seq<Seg>)
    ensures FoldStack(c, st, m, [g] + rest) == FoldStack(c, StepStack(c, st, m, g), NextMode(m, g.name), rest)
  {
    assert ([g] + rest)[1..] == rest;
  }

  lemma WalkCons(at: Location, g: Seg, rest: seq<Seg>)
    ensures Walk(at, [g] + rest) == Walk(Enter(at, g.name), rest)
  {
    assert ([g] + rest)[1..] == rest;
  }

  /** The components of x/../d:/../y */
  ghost predicate Surfacing(c: Config, x: Seg, up: Seg, d: Seg, y: Seg) {
    && Closed(x, c.seps) && Closed(up, c.seps) && Closed(d, c.seps) && SepFree(y.name, c.seps) && y.end == ""
    && IsName(x.name) && !EndsInColon(x.name) && up.name == ".." && EndsInColon(d.name) && IsName(y.name)
  }

  /** A name and the ".." after it cancel out. */
  lemma NameCancels(c: Config, x: Seg, up: Seg, rest: seq<Seg>)
    requires !c.simple && IsName(x.name) && !EndsInColon(x.name) && up.name == ".."
    ensures FoldStack(c, [], FirstMode(c), [x] + ([up] + rest)) == FoldStack(c, [], Mode(true, false), rest)
  {
    var first := [Seg(x.name, Ending(c, x.end))];
    FoldCons(c, [], FirstMode(c), x, [up] + rest);
    assert StepStack(c, [], FirstMode(c), x) == first;
    FoldCons(c, first, Mode(true, false), up, rest);
    assert StepStack(c, first, Mode(true, false), up) == [];
  }

  /** The drive comes to the front and stays. */
  lemma SurfacingFold(c: Config, x: Seg, up: Seg, d: Seg, y: Seg)
    requires Surfacing(c, x, up, d, y) && c.force.None? && c.disk && !c.simple
    ensures FoldStack(c, [], FirstMode(c), [x] + ([up] + ([d] + ([up] + [y])))) == [d, y]
  {
    NameCancels(c, x, up, [d] + ([up] + [y]));
    FoldCons(c, [], Mode(true, false), d, [up] + [y]);
    assert StepStack(c, [], Mode(true, false), d) == [d] + [];
    StaysOnDrive(c, [d] + [], up, y);
  }

  /** ".." leaves a lone drive where it is, and a name goes below it. */
  lemma StaysOnDrive(c: Config, st: seq<Seg>, up: Seg, y: Seg)
    requires c.disk && c.force.None? && |st| == 1 && EndsInColon(st[0].name) && up.name == ".." && IsName(y.name)
    ensures FoldStack(c, st, Mode(true, false), [up] + [y]) == st + [y]
  {
    FoldCons(c, st, Mode(true, false), up, [y]);
    assert StepStack(c, st, Mode(true, false), up) == st;
    FoldCons(c, st, Mode(true, false), y, []);
    assert [y] + [] == [y];
    assert StepStack(c, st, Mode(true, false), y) == st + [y];
  }

  lemma SurfacingWalk(c: Config, x: Seg, up: Seg, d: Seg, y: Seg)
    requires Surfacing(c, x, up, d, y)
    ensures Walk([], [x] + ([up] + ([d] + ([up] + [y])))) == [y.name]
  {
    WalkCons([], x, [up] + ([d] + ([up] + [y])));
    WalkCons([x.name], up, [d] + ([up] + [y]));
    WalkCons([], d, [up] + [y]);
    WalkCons([d.name], up, [y]);
    WalkOne([], y);
  }

  lemma RenderCons(g: Seg, rest: seq<Seg>)
    ensures Render([g] + rest) == g.name + g.end + Render(rest)
  {
    assert ([g] + rest)[1..] == rest;
  }

  lemma SurfacingSegments(c: Config, x: Seg, up: Seg, d: Seg, y: Seg)
    requires Surfacing(c, x, up, d, y)
    ensures var segs := [x] + ([up] + ([d] + ([up] + [y])));
            && Proper(segs, c.seps) && Proper([d, y], c.seps)
            && Render(segs) == x.name + x.end + (up.name + up.end + (d.name + d.end + (up.name + up.end + y.name)))
            && Render([d, y]) == d.name + d.end + y.name
  {
    RenderCons(x, [up] + ([d] + ([up] + [y])));
    RenderCons(up, [d] + ([up] + [y]));
    RenderCons(d, [up] + [y]);
    RenderCons(up, [y]);
    RenderOne(y);
    assert [d, y] == [d] + [y];
    RenderCons(d, [y]);
    assert Render([y]) == y.name;
  }

  /** Every relative path of the form x/../d:/../y becomes the path d:/y on a drive. */
  lemma RelativeBecomesDrive(c: Config, x: Seg, up: Seg, d: Seg, y: Seg)
    requires ForcedInSplit(c) && Surfacing(c, x, up, d, y) && c.force.None? && c.disk && !c.simple
    ensures var src := x.name + x.end + (up.name + up.end + (d.name + d.end + (up.name + up.end + y.name)));
            var out := d.name + d.end + y.name;
            && Normal(c, src) == out
            && (forall cwd :: ResolveOnDrive(cwd, out, c.seps) == Place(d.name, [y.name]))
            && ResolveOnDrive(Place("", []), src, c.seps) == Place("", [y.name])
  {
    var segs := [x] + ([up] + ([d] + ([up] + [y])));
    SurfacingSegments(c, x, up, d, y);
    SegmentsOfRender(segs, c.seps);
    SegmentsOfRender([d, y], c.seps);
    NormalRefinesStack(c, Render(segs));
    SurfacingFold(c, x, up, d, y);
    SurfacingWalk(c, x, up, d, y);
    assert [d, y][1..] == [y];
    WalkOne([], y);
  }

  lemma ExampleStrings()
    ensures "a" + "/" + (".." + "/" + ("c:" + "/" + (".." + "/" + "b"))) == "a/../c:/../b"
    ensures "c:" + "/" + "b" == "c:/b"
  {
  }

  /** For one, under the Windows defaults, "a/../c:/../b" becomes "c:/b". */
  lemma RelativeBecomesDriveExample(c: Config)
    requires c == Settings(Flags(false, false, false, false, false, false, false), true)
    ensures Normal(c, "a/../c:/../b") == "c:/b"
  {
    var x, up, d, y := Seg("a", "/"), Seg("..", "/"), Seg("c:", "/"), Seg("b", "");
    assert Surfacing(c, x, up, d, y);
    RelativeBecomesDrive(c, x, up, d, y);
    ExampleStrings();
  }

  // ----- SIMPLE with disk letters

  /** As `Enter`, but a lone component ending in a colon is not left by "..". */
  function EnterBelowDrive(at: Location, name: string): Location {
    if name == ".." && |at| == 1 && EndsInColon(at[0]) then at else Enter(at, name)
  }

  function WalkBelowDrive(at: Location, segs: seq<Seg>): Location
    decreases |segs|
  {
    if segs == [] then at else WalkBelowDrive(EnterBelowDrive(at, segs[0].name), segs[1..])
  }

  /** The components after a drive, if the first one that is not empty or a dot is a drive. */
  function AfterDrive(segs: seq<Seg>): seq<Seg> {
    if segs == [] then []
    else if segs[0].name == "" || segs[0].name == "." then AfterDrive(segs[1..])
    else if EndsInColon(segs[0].name) then segs[1..]
    else segs
  }

  lemma StepSimpleDisk(c: Config, st: seq<Seg>, g: Seg)
    requires c.simple && c.disk && Plain(st)
    ensures var st' := StepStack(c, st, Mode(true, false), g);
            Plain(st') && Names(st') == EnterBelowDrive(Names(st), g.name)
  {
  }

  lemma {:induction false} FoldSimpleDisk(c: Config, st: seq<Seg>, segs: seq<Seg>)
    requires c.simple && c.disk && Plain(st)
    ensures Names(FoldStack(c, st, Mode(true, false), segs)) == WalkBelowDrive(Names(st), segs)
    decreases |segs|
  {
    if segs != [] {
      StepSimpleDisk(c, st, segs[0]);
      FoldSimpleDisk(c, StepStack(c, st, Mode(true, false), segs[0]), segs[1..]);
    }
  }

  lemma {:induction false} FoldSkipsDrive(c: Config, segs: seq<Seg>)
    requires c.simple && c.disk
    ensures Names(FoldStack(c, [], Mode(true, true), segs)) == WalkBelowDrive([], AfterDrive(segs))
    decreases |segs|
  {
    if segs != [] {
      var g := segs[0];
      if g.name == "" || g.name == "." {
        assert StepStack(c, [], Mode(true, true), g) == [];
        FoldSkipsDrive(c, segs[1..]);
      } else if EndsInColon(g.name) {
        assert StepStack(c, [], Mode(true, true), g) == [];
        FoldSimpleDisk(c, [], segs[1..]);
      } else {
        assert StepStack(c, [], Mode(true, true), g) == StepStack(c, [], Mode(true, false), g);
        StepSimpleDisk(c, [], g);
        FoldSimpleDisk(c, StepStack(c, [], Mode(true, true), g), segs[1..]);
      }
    }
  }

  /** With SIMPLE and disk letters the components of the result are those of the input after a leading drive,
      resolved from the root, where a lone component ending in a colon is not left. */
  lemma SimpleDropsDrive(c: Config, src: string)
    requires ForcedInSplit(c) && c.simple && c.disk
    ensures Names(Segments(Normal(c, src), c.seps)) == WalkBelowDrive([], AfterDrive(Segments(src, c.seps)))
  {
    NormalRefinesStack(c, src);
    FoldSkipsDrive(c, Segments(src, c.seps));
  }

  // ----- idempotence

  lemma {:induction false} Replay(c: Config, st: seq<Seg>, i: nat)
    requires i <= |st| && Canon(st) && Forced(c, st) && (c.simple ==> Plain(st)) && (c.simple || i > 0)
    ensures FoldStack(c, st[..i], Mode(true, false), st[i..]) == st
    decreases |st| - i
  {
    if i == |st| {
      assert st[..i] == st;
    } else {
      var g := st[i];
      assert st[i..][1..] == st[i + 1..] && st[..i][..i] == st[..i];
      assert g == Seg(g.name, Ending(c, g.end));
      assert StepStack(c, st[..i], Mode(true, false), g) == st[..i] + [g] == st[..i + 1];
      Replay(c, st, i + 1);
    }
  }

  lemma {:induction false} FoldShort(c: Config, st: seq<Seg>, m: Mode, segs: seq<Seg>)
    ensures |FoldStack(c, st, m, segs)| <= |st| + |segs|
    decreases |segs|
  {
    if segs != [] {
      FoldShort(c, StepStack(c, st, m, segs[0]), NextMode(m, segs[0].name), segs[1..]);
    }
  }

  /** Feeding a stack in final form back in reproduces it, unless its first component is skipped. */
  lemma ReplayAll(c: Config, st: seq<Seg>)
    requires Canon(st) && Forced(c, st) && (c.simple ==> Plain(st))
    ensures FoldStack(c, [], FirstMode(c), st) == st <==>
              !(c.simple && c.disk && st != [] && EndsInColon(st[0].name))
  {
    if st != [] {
      var m := NextMode(FirstMode(c), st[0].name);
      if c.simple && c.disk && EndsInColon(st[0].name) {
        assert StepStack(c, [], FirstMode(c), st[0]) == [];
        FoldShort(c, [], m, st[1..]);
      } else {
        assert st[0] == Seg(st[0].name, Ending(c, st[0].end));
        assert StepStack(c, [], FirstMode(c), st[0]) == [st[0]] == st[..1];
        Replay(c, st, 1);
      }
    }
  }

  /** Normalising a result again gives it back if and only if it is not the case that, with SIMPLE and disk letters,
      what the input leads to after its drive starts with another component ending in a colon. */
  lemma IdempotentIff(c: Config, src: string)
    requires ForcedInSplit(c)
    ensures var at := WalkBelowDrive([], AfterDrive(Segments(src, c.seps)));
            Normal(c, Normal(c, src)) == Normal(c, src) <==>
              !(c.simple && c.disk && at != [] && EndsInColon(at[0]))
  {
    NormalRefinesStack(c, src);
    NormalRefinesStack(c, Normal(c, src));
    FoldForm(c, [], FirstMode(c), Segments(src, c.seps));
    ReplayAll(c, NormalStack(c, src));
    if c.simple && c.disk {
      SimpleDropsDrive(c, src);
    }
  }

  /** The failing family has members: "c:/d:" becomes "d:", and that becomes empty. */
  lemma NotIdempotentExample(c: Config)
    requires c == Config({'/'}, None, true, true)
    ensures Normal(c, "c:/d:") == "d:" && Normal(c, "d:") == ""
  {
    var first, second := Seg("c:", "/"), Seg("d:", "");
    FirstSepIs("c:/d:", c.seps, 2);
    FirstSepIs("d:", c.seps, 2);
    assert "c:/d:"[..2] == "c:" && "c:/d:"[3..] == "d:";
    assert Segments("d:", c.seps) == [second];
    assert Segments("c:/d:", c.seps) == [first, second];
    assert [first, second][1..] == [second] && [second][1..] == [];
    assert StepBytes(c, "", Mode(true, true), first) == "" && StepBytes(c, "", Mode(true, true), second) == "";
    assert StepBytes(c, "", Mode(true, false), second) == "d:";
    assert FoldBytes(c, "", Mode(true, false), [second]) == "d:";
  }
}
