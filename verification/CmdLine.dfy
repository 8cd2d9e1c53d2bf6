/** An argument list printed as one command line, and how to read it back. */
module CmdLine {
  import opened Basics

  /** Conversion of an argument to wide characters; it may fail. */
  type Conversion = string -> Option<string>

  const QUOTE: char := '"'
  const SPACE: char := ' '
  const NUL: char := '\0'

  predicate Converts(conv: Conversion, argv: seq<string>) {
    forall i :: 0 <= i < |argv| ==> conv(argv[i]).Some?
  }

  predicate QuoteFree(argv: seq<string>) {
    forall i :: 0 <= i < |argv| ==> QUOTE !in argv[i]
  }

  /** One argument as printed: in quotes if it has a space. */
  function Piece(arg: string, wide: string): string {
    if SPACE in arg then [QUOTE] + wide + [QUOTE] else wide
  }

  /** All arguments, each followed by a space. */
  function Spaced(conv: Conversion, argv: seq<string>): string
    requires Converts(conv, argv)
  {
    if argv == [] then ""
    else
      var init, last := argv[..|argv| - 1], argv[|argv| - 1];
      Spaced(conv, init) + Piece(last, conv(last).value) + [SPACE]
  }

  function Line(conv: Conversion, argv: seq<string>): string
    requires Converts(conv, argv)
  {
    var s := Spaced(conv, argv);
    if s == "" then s else s[..|s| - 1]
  }

  // ----- the printer

  /** Room the first pass counts for an argument: its characters, a terminator, two quotes and a space. */
  function Budget(conv: Conversion, argv: seq<string>): nat
    requires Converts(conv, argv)
  {
    if argv == [] then 1
    else Budget(conv, argv[..|argv| - 1]) + |conv(argv[|argv| - 1]).value| + 1 + 3
  }

  lemma {:induction false} BudgetGrows(conv: Conversion, argv: seq<string>, i: nat)
    requires Converts(conv, argv) && i <= |argv|
    ensures Budget(conv, argv[..i]) <= Budget(conv, argv)
    decreases |argv| - i
  {
    if i == |argv| {
      assert argv[..i] == argv;
    } else {
      BudgetGrows(conv, argv, i + 1);
      assert argv[..i + 1][..i] == argv[..i];
    }
  }

  /** What has been printed always leaves the budget of the arguments to come, and one character. */
  lemma {:induction false} SpacedWithinBudget(conv: Conversion, argv: seq<string>)
    requires Converts(conv, argv)
    ensures |Spaced(conv, argv)| + |argv| + 1 <= Budget(conv, argv)
  {
    if argv != [] {
      SpacedWithinBudget(conv, argv[..|argv| - 1]);
    }
  }

  /** The first pass: the size of the buffer, unless some argument does not convert. */
  method Measure(argv: seq<string>, conv: Conversion) returns (cap: Option<nat>)
    ensures cap.Some? <==> Converts(conv, argv)
    ensures cap.Some? ==> cap.value == Budget(conv, argv)
  {
    var n := 1;
    for i := 0 to |argv|
      invariant Converts(conv, argv[..i]) && n == Budget(conv, argv[..i])
    {
      if conv(argv[i]).None? {
        return None;
      }
      assert argv[..i + 1][..i] == argv[..i];
      n := n + |conv(argv[i]).value| + 1 + 3;
    }
    assert argv[..|argv|] == argv;
    return Some(n);
  }

  /** ffsz_utow into a buffer with `room` characters left: the characters and a terminator, which must fit. */
  method PutWide(args: array<char>, k: nat, room: nat, wide: string)
    requires |wide| + 1 <= room && k + room <= args.Length
    modifies args
    ensures args[..k + |wide|] == old(args[..k]) + wide
  {
    forall i | 0 <= i < |wide| {
      args[k + i] := wide[i];
    }
    args[k + |wide|] := NUL;
  }

  method PutChar(args: array<char>, k: nat, c: char)
    requires k < args.Length
    modifies args
    ensures args[..k + 1] == old(args[..k]) + [c]
  {
    args[k] := c;
  }

  /** One argument of the second pass. There is always room for its conversion. */
  method PutArg(args: array<char>, k0: nat, cap: nat, arg: string, wide: string) returns (k: nat)
    requires k0 + |wide| + 4 <= cap < args.Length
    modifies args
    ensures k == k0 + |Piece(arg, wide)| + 1
    ensures k < cap && args[..k] == old(args[..k0]) + Piece(arg, wide) + [SPACE]
  {
    ghost var was := args[..k0];
    if SPACE in arg {
      PutChar(args, k0, QUOTE);
      PutWide(args, k0 + 1, cap - (k0 + 1), wide);
      PutChar(args, k0 + 1 + |wide|, QUOTE);
      k := k0 + |wide| + 2;
      assert args[..k] == ((was + [QUOTE]) + wide) + [QUOTE];
      Quoted(was, wide);
    } else {
      PutWide(args, k0, cap - k0, wide);
      k := k0 + |wide|;
    }
    PutChar(args, k, SPACE);
    k := k + 1;
  }

  lemma Quoted(was: string, wide: string)
    ensures ((was + [QUOTE]) + wide) + [QUOTE] == was + ([QUOTE] + wide + [QUOTE])
  {
  }

  /** The first `i` arguments as printed so far. */
  ghost function Printed(conv: Conversion, argv: seq<string>, i: nat): string
    requires Converts(conv, argv) && i <= |argv|
  {
    Spaced(conv, argv[..i])
  }

  lemma PrintedStep(conv: Conversion, argv: seq<string>, i: nat)
    requires Converts(conv, argv) && i < |argv|
    ensures Printed(conv, argv, i + 1) == Printed(conv, argv, i) + Piece(argv[i], conv(argv[i]).value) + [SPACE]
  {
    assert argv[..i + 1][..i] == argv[..i];
  }

  lemma PrintedAll(conv: Conversion, argv: seq<string>)
    requires Converts(conv, argv)
    ensures Printed(conv, argv, |argv|) == Spaced(conv, argv)
  {
    assert argv[..|argv|] == argv;
  }

  /** The second pass. */
  method PrintArgs(args: array<char>, argv: seq<string>, conv: Conversion) returns (ok: bool, k: nat)
    requires Converts(conv, argv) && args.Length == Budget(conv, argv) + 1
    modifies args
    ensures ok <==> QuoteFree(argv)
    ensures ok ==> k < args.Length && args[..k] == Spaced(conv, argv)
  {
    var cap := args.Length - 1;
    k := 0;
    for i := 0 to |argv|
      invariant forall j :: 0 <= j < i ==> QUOTE !in argv[j]
      invariant k <= cap && args[..k] == Printed(conv, argv, i)
    {
      if QUOTE in argv[i] {
        return false, k;
      }
      RoomForNext(conv, argv, i);
      PrintedStep(conv, argv, i);
      k := PutArg(args, k, cap, argv[i], conv(argv[i]).value);
    }
    PrintedAll(conv, argv);
    return true, k;
  }

  /** _ffargv_to_cmdln: fails exactly when memory runs out, an argument does not convert, or one has a quote;
      every write stays inside the buffer measured by the first pass. */
  method ArgvToCmdLine(argv: seq<string>, conv: Conversion, allocFails: bool)
    returns (ok: bool, args: array<char>, k: nat)
    ensures ok <==> Converts(conv, argv) && QuoteFree(argv) && !allocFails
    ensures ok ==> fresh(args) && args.Length == Budget(conv, argv) + 1
    ensures ok ==> 0 < k <= args.Length && args[..k] == Line(conv, argv) + ['\0']
  {
    ok, k := false, 0;
    args := new char[0];
    var cap := Measure(argv, conv);
    if cap.None? || allocFails {
      return;
    }
    args := new char[cap.value + 1];
    ok, k := PrintArgs(args, argv, conv);
    if !ok {
      return;
    }
    if k != 0 {
      k := k - 1;
    }
    assert args[..k] == Line(conv, argv);
    PutChar(args, k, NUL);
    k := k + 1;
  }

  lemma RoomForNext(conv: Conversion, argv: seq<string>, i: nat)
    requires Converts(conv, argv) && i < |argv|
    ensures |Spaced(conv, argv[..i])| + |conv(argv[i]).value| + 4 <= Budget(conv, argv)
  {
    SpacedWithinBudget(conv, argv[..i]);
    BudgetGrows(conv, argv, i + 1);
    assert argv[..i + 1][..i] == argv[..i];
  }

  // ----- reading it back

  /** Split at every space outside quotes, dropping the quotes. Two spaces in a row have an empty token between
      them, and the last token may be empty too. */
  function Scan(s: string, quoted: bool, cur: string): seq<string> {
    if s == "" then [cur]
    else if s[0] == QUOTE then Scan(s[1..], !quoted, cur)
    else if s[0] == SPACE && !quoted then [cur] + Scan(s[1..], false, "")
    else Scan(s[1..], quoted, cur + [s[0]])
  }

  function Split(line: string): seq<string> {
    Scan(line, false, "")
  }

  lemma {:induction false} ScanPlain(w: string, rest: string, quoted: bool, cur: string)
    requires QUOTE !in w && (quoted || SPACE !in w)
    ensures Scan(w + rest, quoted, cur) == Scan(rest, quoted, cur + w)
    decreases |w|
  {
    if w == "" {
      assert w + rest == rest && cur + w == cur;
    } else {
      assert (w + rest)[1..] == w[1..] + rest;
      assert w == [w[0]] + w[1..];
      ScanPlain(w[1..], rest, quoted, cur + [w[0]]);
      assert cur + [w[0]] + w[1..] == cur + w;
    }
  }

  /** A printed argument scans back to its wide form. */
  lemma ScanPiece(arg: string, w: string, rest: string)
    requires QUOTE !in w && (SPACE in arg <==> SPACE in w)
    ensures Scan(Piece(arg, w) + rest, false, "") == Scan(rest, false, w)
  {
    if SPACE in arg {
      var s := [QUOTE] + w + [QUOTE] + rest;
      assert Piece(arg, w) + rest == s;
      assert s[1..] == w + ([QUOTE] + rest);
      ScanPlain(w, [QUOTE] + rest, true, "");
      assert "" + w == w && ([QUOTE] + rest)[1..] == rest;
    } else {
      ScanPlain(w, rest, false, "");
      assert "" + w == w;
    }
  }

  /** What a conversion must respect for the line to be readable: spaces, quotes and distinctness. */
  ghost predicate Faithful(conv: Conversion) {
    && (forall a :: conv(a).Some? ==>
          && (SPACE in a <==> SPACE in conv(a).value)
          && (QUOTE in a <==> QUOTE in conv(a).value)
          && (a == "" <==> conv(a).value == ""))
    && (forall a, b :: conv(a).Some? && conv(a) == conv(b) ==> a == b)
  }

  function Wides(conv: Conversion, argv: seq<string>): (ws: seq<string>)
    requires Converts(conv, argv)
    ensures |ws| == |argv| && forall i :: 0 <= i < |argv| ==> ws[i] == conv(argv[i]).value
  {
    seq(|argv|, i requires 0 <= i < |argv| => conv(argv[i]).value)
  }

  /** The line from its first argument on. */
  function Tail(conv: Conversion, argv: seq<string>): string
    requires Converts(conv, argv)
  {
    if argv == [] then ""
    else if |argv| == 1 then Piece(argv[0], conv(argv[0]).value)
    else Piece(argv[0], conv(argv[0]).value) + [SPACE] + Tail(conv, argv[1..])
  }

  lemma SpacedSnoc(conv: Conversion, init: seq<string>, last: string)
    requires Converts(conv, init) && conv(last).Some?
    ensures Spaced(conv, init + [last]) == Spaced(conv, init) + (Piece(last, conv(last).value) + [SPACE])
  {
    assert (init + [last])[..|init|] == init;
  }

  lemma Associate(a: string, b: string, c: string)
    ensures (a + b) + c == a + (b + c)
  {
  }

  lemma {:induction false} SpacedCons(conv: Conversion, argv: seq<string>)
    requires Converts(conv, argv) && argv != []
    ensures Spaced(conv, argv) == Piece(argv[0], conv(argv[0]).value) + [SPACE] + Spaced(conv, argv[1..])
    decreases |argv|
  {
    var init, last := argv[..|argv| - 1], argv[|argv| - 1];
    assert argv == init + [last];
    SpacedSnoc(conv, init, last);
    if |argv| > 1 {
      SpacedCons(conv, init);
      assert argv[1..] == init[1..] + [last];
      SpacedSnoc(conv, init[1..], last);
      Associate(Piece(argv[0], conv(argv[0]).value) + [SPACE], Spaced(conv, init[1..]), Piece(last, conv(last).value) + [SPACE]);
    } else {
      assert init == [] && argv[1..] == [];
    }
  }

  lemma {:induction false} LineIsTail(conv: Conversion, argv: seq<string>)
    requires Converts(conv, argv)
    ensures argv != [] ==> Spaced(conv, argv) == Tail(conv, argv) + [SPACE]
    ensures Line(conv, argv) == Tail(conv, argv)
    decreases |argv|
  {
    if argv != [] {
      SpacedCons(conv, argv);
      LineIsTail(conv, argv[1..]);
      if |argv| == 1 {
        assert argv[1..] == [];
      }
    }
  }

  /** An argument with a space is printed in double quotes, any other as it is. */
  lemma PieceInQuotes(arg: string, wide: string)
    ensures Piece(arg, wide) == if ' ' in arg then "\"" + wide + "\"" else wide
  {
  }

  /** Three arguments, of which the middle one has a space, with single spaces between them; the documented example is
      filename, arg space, arg. */
  lemma ThreeArguments(conv: Conversion, a: string, b: string, c: string)
    requires conv(a) == Some(a) && conv(b) == Some(b) && conv(c) == Some(c)
    requires ' ' !in a && ' ' in b && ' ' !in c
    ensures Line(conv, [a, b, c]) == a + " \"" + b + "\" " + c
  {
    LineIsTail(conv, [a, b, c]);
    assert [a, b, c][1..] == [b, c] && [b, c][1..] == [c];
    assert Tail(conv, [c]) == c;
    assert Tail(conv, [b, c]) == "\"" + b + "\"" + [' '] + c;
    assert Tail(conv, [a, b, c]) == a + [' '] + ("\"" + b + "\"" + [' '] + c);
  }

  lemma {:induction false} SplitTail(conv: Conversion, argv: seq<string>)
    requires Faithful(conv) && Converts(conv, argv) && QuoteFree(argv) && argv != []
    ensures Split(Tail(conv, argv)) == Wides(conv, argv)
    decreases |argv|
  {
    var arg, w := argv[0], conv(argv[0]).value;
    if |argv| == 1 {
      ScanPiece(arg, w, "");
      assert Piece(arg, w) + "" == Piece(arg, w);
    } else {
      var rest := [SPACE] + Tail(conv, argv[1..]);
      ScanPiece(arg, w, rest);
      assert Piece(arg, w) + rest == Tail(conv, argv);
      assert rest[1..] == Tail(conv, argv[1..]);
      SplitTail(conv, argv[1..]);
    }
  }

  /** Splitting the printed line gives the arguments back, empty ones included; only the empty list reads back
      as something else. */
  lemma SplitIsLeftInverseIff(conv: Conversion, argv: seq<string>)
    requires Faithful(conv) && Converts(conv, argv) && QuoteFree(argv)
    ensures Split(Line(conv, argv)) == Wides(conv, argv) <==> argv != []
  {
    LineIsTail(conv, argv);
    if argv != [] {
      SplitTail(conv, argv);
    }
  }

  /** The empty list and the list of one empty argument both print as the empty line. */
  lemma EmptyLists(conv: Conversion)
    requires Faithful(conv) && conv("").Some?
    ensures Line(conv, []) == Line(conv, [""]) == ""
  {
    LineIsTail(conv, []);
    LineIsTail(conv, [""]);
    assert Piece("", conv("").value) == "";
  }

  lemma WidesInjective(conv: Conversion, a: seq<string>, b: seq<string>)
    requires Faithful(conv) && Converts(conv, a) && Converts(conv, b) && Wides(conv, a) == Wides(conv, b)
    ensures a == b
  {
    assert |a| == |b|;
    forall i | 0 <= i < |a| ensures a[i] == b[i] {
      assert Wides(conv, a)[i] == Wides(conv, b)[i];
      assert conv(a[i]) == conv(b[i]);
    }
  }

  /** A line that is empty comes from the empty list or from one empty argument. */
  lemma PrintsNothing(conv: Conversion, argv: seq<string>)
    requires Faithful(conv) && Converts(conv, argv) && Line(conv, argv) == ""
    ensures argv == [] || argv == [""]
  {
    LineIsTail(conv, argv);
    if argv != [] {
      assert |argv| == 1 && Piece(argv[0], conv(argv[0]).value) == "";
    }
  }

  /** Two lists of quote-free arguments print the same line if and only if they are equal, or one is empty and
      the other is one empty argument. */
  lemma PrintingIsInjectiveIff(conv: Conversion, a: seq<string>, b: seq<string>)
    requires Faithful(conv) && Converts(conv, a) && Converts(conv, b) && QuoteFree(a) && QuoteFree(b)
    ensures Line(conv, a) == Line(conv, b) <==> a == b || (a == [] && b == [""]) || (a == [""] && b == [])
  {
    if a == [] || b == [] {
      LineIsTail(conv, []);
      if Line(conv, a) == Line(conv, b) {
        PrintsNothing(conv, a);
        PrintsNothing(conv, b);
      } else if a == [""] || b == [""] {
        EmptyLists(conv);
      }
    } else if Line(conv, a) == Line(conv, b) {
      SplitIsLeftInverseIff(conv, a);
      SplitIsLeftInverseIff(conv, b);
      WidesInjective(conv, a, b);
    }
  }
}
