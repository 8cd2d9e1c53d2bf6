/** What the flags of a caller promise about the bytes that come out. */
module PathFlags {
  import opened Basics
  import opened PathSyntax
  import opened PathNormal
  import opened PathTheorems
  import opened PathDisks

  /** The characters a path is split by: backslash too if asked for, or on Windows unless slash alone is asked for. */
  function SplitSet(f: Flags, windows: bool): set<char> {
    if f.slashBackslash || (windows && !f.slashOnly) then {'/', '\\'} else {'/'}
  }

  /** Whether a leading component ending in a colon is a drive. */
  predicate Drives(f: Flags, windows: bool) {
    f.diskLetter || (windows && !f.noDiskLetter)
  }

  /** Backslash is written without being split by. */
  predicate ForeignBackslash(f: Flags, windows: bool) {
    f.forceBackslash && !f.forceSlash && '\\' !in SplitSet(f, windows)
  }

  // ----- which separators come out

  /** No component's name holds the character. */
  ghost predicate NamesAvoid(segs: seq<Seg>, ch: char) {
    forall i :: 0 <= i < |segs| ==> ch !in segs[i].name
  }

  lemma {:induction false} FoldAvoids(c: Config, out: string, m: Mode, segs: seq<Seg>, ch: char)
    requires ch !in out && NamesAvoid(segs, ch) && c.force.Some? && c.force.value != ch
    ensures ch !in FoldBytes(c, out, m, segs)
    decreases |segs|
  {
    if segs != [] {
      FoldAvoids(c, StepBytes(c, out, m, segs[0]), NextMode(m, segs[0].name), segs[1..], ch);
    }
  }

  lemma SplitNamesAvoid(src: string, seps: set<char>, ch: char)
    requires ch in seps
    ensures NamesAvoid(Segments(src, seps), ch)
  {
    var segs := Segments(src, seps);
    RenderOfSegments(src, seps);
    forall i | 0 <= i < |segs| ensures ch !in segs[i].name {
      assert i < |segs| - 1 ==> segs[i] == segs[..|segs| - 1][i];
      assert SepFree(segs[i].name, seps);
    }
  }

  /** Of a path split by a character, none is left when another one is forced. */
  lemma ForcedLeavesNoOther(c: Config, src: string, ch: char)
    requires ch in c.seps && c.force.Some? && c.force.value != ch
    ensures ch !in Normal(c, src)
  {
    SplitNamesAvoid(src, c.seps, ch);
    FoldAvoids(c, "", FirstMode(c), Segments(src, c.seps), ch);
  }

  /** Forcing slash leaves no backslash that is a separator, forcing backslash alone leaves no slash at all, and
      forcing nothing leaves every component with the separator it had. */
  ghost predicate Separators(f: Flags, windows: bool, src: string, out: string) {
    var seps := SplitSet(f, windows);
    && (f.forceSlash && '\\' in seps ==> '\\' !in out)
    && (f.forceBackslash && !f.forceSlash ==> '/' !in out)
    && (!f.forceSlash && !f.forceBackslash ==> forall g :: g in Segments(out, seps) ==> g in Segments(src, seps))
  }

  lemma SeparatorsByFlags(f: Flags, windows: bool, src: string)
    ensures Separators(f, windows, src, Normal(Settings(f, windows), src))
  {
    var c, seps := Settings(f, windows), SplitSet(f, windows);
    if f.forceSlash && '\\' in seps {
      ForcedLeavesNoOther(c, src, '\\');
    }
    if f.forceBackslash && !f.forceSlash {
      ForcedLeavesNoOther(c, src, '/');
    }
    if !f.forceSlash && !f.forceBackslash {
      KeepsSegments(c, src);
    }
  }

  lemma KeepsSegments(c: Config, src: string)
    requires c.force.None?
    ensures forall g :: g in Segments(Normal(c, src), c.seps) ==> g in Segments(src, c.seps)
  {
    var segs, out := Segments(src, c.seps), Segments(Normal(c, src), c.seps);
    ComponentsFromInput(c, src);
    forall h | h in out ensures h in segs {
      var i :| 0 <= i < |out| && out[i] == h;
      var g :| g in segs && Carries(c, g, out[i]);
      assert g == h;
    }
  }

  // ----- which components come out

  /** No empty or "." component after the first, ".." only in a leading run and not below a root. */
  ghost predicate Canonical(out: string, seps: set<char>) {
    var segs := Segments(out, seps);
    && (forall i :: 1 <= i < |segs| ==> segs[i].name != "" && segs[i].name != ".")
    && (forall i, j :: 0 <= j <= i < |segs| && segs[i].name == ".." ==> segs[j].name == "..")
    && (Absolute(out, seps) ==> forall i :: 0 <= i < |segs| ==> segs[i].name != "..")
  }

  /** With SIMPLE, the place the input leads to from the root, a leading drive dropped; otherwise a canonical path to
      the same place from everywhere, unless disk letters are on and the path brings up a drive. */
  ghost predicate Components(f: Flags, windows: bool, src: string, out: string) {
    var seps, drives := SplitSet(f, windows), Drives(f, windows);
    && Canonical(out, seps)
    && (f.simple ==>
          Names(Segments(out, seps)) ==
            if drives then WalkBelowDrive([], AfterDrive(Segments(src, seps))) else Resolve([], src, seps))
    && (!f.simple && !drives ==> forall cwd :: Resolve(cwd, out, seps) == Resolve(cwd, src, seps))
    && (!f.simple && drives ==>
          ((forall cwd :: ResolveOnDrive(cwd, out, seps) == ResolveOnDrive(cwd, src, seps))
           <==> !DriveSurfaces(Segments(src, seps))))
  }

  lemma ComponentsByFlags(f: Flags, windows: bool, src: string)
    requires !ForeignBackslash(f, windows)
    ensures Components(f, windows, src, Normal(Settings(f, windows), src))
  {
    var c := Settings(f, windows);
    OutputForm(c, src);
    if f.simple {
      if Drives(f, windows) {
        SimpleDropsDrive(c, src);
      } else {
        SimpleIsResolvedFromRoot(c, src);
      }
    } else if Drives(f, windows) {
      MeaningWithDrivesIff(c, src);
    } else {
      forall cwd ensures Resolve(cwd, Normal(c, src), c.seps) == Resolve(cwd, src, c.seps) {
        MeaningPreserved(c, cwd, src);
      }
    }
  }

  /** All that the flags promise about the output. */
  ghost predicate AsFlagsSay(f: Flags, windows: bool, src: string, out: string) {
    Separators(f, windows, src, out) && (!ForeignBackslash(f, windows) ==> Components(f, windows, src, out))
  }

  lemma NormalAsFlagsSay(f: Flags, windows: bool, src: string)
    ensures AsFlagsSay(f, windows, src, Normal(Settings(f, windows), src))
  {
    SeparatorsByFlags(f, windows, src);
    if !ForeignBackslash(f, windows) {
      ComponentsByFlags(f, windows, src);
    }
  }
}
