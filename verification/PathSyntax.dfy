/** Paths as strings and as lists of components, and what a path means. */
module PathSyntax {
  /** A component and the separator that ends it: one character, or nothing for an unfinished last component. */
  datatype Seg = Seg(name: string, end: string)

  function FirstSepFrom(s: string, seps: set<char>, i: nat): (p: nat)
    requires i <= |s|
    ensures i <= p <= |s|
    ensures forall j :: i <= j < p ==> s[j] !in seps
    ensures p < |s| ==> s[p] in seps
    decreases |s| - i
  {
    if i == |s| || s[i] in seps then i else FirstSepFrom(s, seps, i + 1)
  }

  /** Position of the first separator, or the length if there is none. */
  function FirstSep(s: string, seps: set<char>): nat {
    FirstSepFrom(s, seps, 0)
  }

  /** Splitting by any of the separators; a path that ends in one has no further component. */
  function Segments(s: string, seps: set<char>): seq<Seg>
    decreases |s|
  {
    if s == "" then []
    else
      var p := FirstSep(s, seps);
      if p == |s| then [Seg(s, "")]
      else [Seg(s[..p], [s[p]])] + Segments(s[p + 1..], seps)
  }

  function Render(segs: seq<Seg>): string {
    if segs == [] then "" else segs[0].name + segs[0].end + Render(segs[1..])
  }

  ghost predicate SepFree(s: string, seps: set<char>) {
    forall i :: 0 <= i < |s| ==> s[i] !in seps
  }

  /** A finished component. */
  ghost predicate Closed(g: Seg, seps: set<char>) {
    SepFree(g.name, seps) && |g.end| == 1 && g.end[0] in seps
  }

  ghost predicate AllClosed(segs: seq<Seg>, seps: set<char>) {
    forall i :: 0 <= i < |segs| ==> Closed(segs[i], seps)
  }

  /** What splitting produces: closed components, except that the last may be open if it has a name. */
  ghost predicate Proper(segs: seq<Seg>, seps: set<char>) {
    segs != [] ==>
      && AllClosed(segs[..|segs| - 1], seps)
      && var g := segs[|segs| - 1];
         Closed(g, seps) || (SepFree(g.name, seps) && g.name != "" && g.end == "")
  }

  lemma {:induction false} RenderConcat(a: seq<Seg>, b: seq<Seg>)
    ensures Render(a + b) == Render(a) + Render(b)
  {
    if a == [] {
      assert a + b == b;
    } else {
      assert (a + b)[1..] == a[1..] + b;
      RenderConcat(a[1..], b);
    }
  }

  lemma RenderOne(g: Seg)
    ensures Render([g]) == g.name + g.end
  {
    assert [g][1..] == [];
  }

  /** The first separator of `a` followed by a separator is right after `a`. */
  lemma FirstSepIs(s: string, seps: set<char>, p: nat)
    requires p <= |s| && SepFree(s[..p], seps) && (p < |s| ==> s[p] in seps)
    ensures FirstSep(s, seps) == p
  {
    assert forall i :: 0 <= i < p ==> s[..p][i] == s[i];
  }

  lemma {:induction false} RenderOfSegments(s: string, seps: set<char>)
    ensures Render(Segments(s, seps)) == s && Proper(Segments(s, seps), seps)
    decreases |s|
  {
    if s != "" {
      var p := FirstSep(s, seps);
      if p == |s| {
        RenderOne(Seg(s, ""));
      } else {
        var rest := Segments(s[p + 1..], seps);
        RenderOfSegments(s[p + 1..], seps);
        assert s == s[..p] + [s[p]] + s[p + 1..];
        ProperCons(Seg(s[..p], [s[p]]), rest, seps);
      }
    }
  }

  lemma ProperCons(g: Seg, rest: seq<Seg>, seps: set<char>)
    requires Closed(g, seps) && Proper(rest, seps)
    ensures Proper([g] + rest, seps)
  {
    var all := [g] + rest;
    if rest != [] {
      assert all[|all| - 1] == rest[|rest| - 1];
      assert all[..|all| - 1] == [g] + rest[..|rest| - 1];
    }
  }

  lemma ProperTail(segs: seq<Seg>, seps: set<char>)
    requires segs != [] && Proper(segs, seps)
    ensures Proper(segs[1..], seps)
    ensures |segs| > 1 ==> Closed(segs[0], seps)
  {
    var rest := segs[1..];
    if |segs| > 1 {
      assert segs[..|segs| - 1][0] == segs[0];
      assert rest[|rest| - 1] == segs[|segs| - 1];
      forall i | 0 <= i < |rest| - 1 ensures Closed(rest[i], seps) {
        assert rest[i] == segs[..|segs| - 1][i + 1];
      }
    }
  }

  /** Splitting a rendered list of components gives the list back. */
  lemma {:induction false} SegmentsOfRender(segs: seq<Seg>, seps: set<char>)
    requires Proper(segs, seps)
    ensures Segments(Render(segs), seps) == segs
  {
    if segs != [] {
      var g, rest := segs[0], segs[1..];
      ProperTail(segs, seps);
      SegmentsOfRender(rest, seps);
      var s := Render(segs);
      assert s == g.name + g.end + Render(rest);
      assert s[..|g.name|] == g.name;
      FirstSepIs(s, seps, |g.name|);
      if g.end != "" {
        assert s[|g.name| + 1..] == Render(rest) && [s[|g.name|]] == g.end;
        assert segs == [g] + rest;
      }
    }
  }

  // ----- what a path means

  type Location = seq<string>

  function Enter(at: Location, name: string): Location {
    if name == "" || name == "." then at
    else if name == ".." then (if at == [] then at else at[..|at| - 1])
    else at + [name]
  }

  function Walk(at: Location, segs: seq<Seg>): Location
    decreases |segs|
  {
    if segs == [] then at else Walk(Enter(at, segs[0].name), segs[1..])
  }

  predicate Absolute(path: string, seps: set<char>) {
    path != "" && path[0] in seps
  }

  /** Where a path leads, component by component, from the current directory or, if absolute, from the root. */
  function Resolve(cwd: Location, path: string, seps: set<char>): Location {
    Walk(if Absolute(path, seps) then [] else cwd, Segments(path, seps))
  }

  lemma {:induction false} WalkConcat(at: Location, a: seq<Seg>, b: seq<Seg>)
    ensures Walk(at, a + b) == Walk(Walk(at, a), b)
    decreases |a|
  {
    if a == [] {
      assert a + b == b;
    } else {
      assert (a + b)[1..] == a[1..] + b;
      WalkConcat(Enter(at, a[0].name), a[1..], b);
    }
  }

  lemma WalkOne(at: Location, g: Seg)
    ensures Walk(at, [g]) == Enter(at, g.name)
  {
  }

  lemma AbsoluteByFirst(segs: seq<Seg>, seps: set<char>)
    requires Proper(segs, seps)
    ensures Absolute(Render(segs), seps) <==> segs != [] && segs[0].name == ""
  {
    if segs != [] {
      ProperTail(segs, seps);
      var s := Render(segs);
      if segs[0].name != "" {
        assert s[0] == segs[0].name[0];
      }
    }
  }
}
