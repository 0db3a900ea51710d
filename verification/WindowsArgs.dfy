/**
 The argument vector of a child process on Windows: a NUL-separated blob is split, each
 argument is quoted onto one command line, and the child's C runtime parses that line by the
 rules Microsoft documents under "Parsing C command-line arguments".
 */
module WindowsArgs {
  import opened Sequences

  type Text = seq<char>

  // ---- the child's parser ----

  predicate IsBlank(c: char) { c == ' ' || c == '\t' }

  function Slashes(n: nat): (r: Text)
    ensures |r| == n && forall i :: 0 <= i < n ==> r[i] == '\\'
  {
    seq(n, i => '\\')
  }

  /** The number of backslashes `s` starts with. */
  function Leading(s: Text): (n: nat)
    ensures n <= |s| && (forall i :: 0 <= i < n ==> s[i] == '\\') && (n < |s| ==> s[n] != '\\')
  {
    if s != [] && s[0] == '\\' then 1 + Leading(s[1..]) else 0
  }

  /**
   One argument, and what is left of the line. 2n backslashes before a quotation mark stand for n
   and the mark delimits, 2n + 1 stand for n and a literal mark; a doubled mark inside quotes is
   a literal one; every other backslash is literal.
   */
  function ParseOne(s: Text, quoted: bool): (r: (Text, Text))
    ensures |r.1| <= |s| && (s != [] && (quoted || !IsBlank(s[0])) ==> |r.1| < |s|)
    decreases |s|
  {
    var b := Leading(s);
    if b == |s| then (Slashes(b), [])
    else if s[b] == '"' then
      if b % 2 == 1 then
        var (a, rest) := ParseOne(s[b + 1..], quoted);
        (Slashes(b / 2) + ['"'] + a, rest)
      else if quoted && b + 1 < |s| && s[b + 1] == '"' then
        var (a, rest) := ParseOne(s[b + 2..], quoted);
        (Slashes(b / 2) + ['"'] + a, rest)
      else
        var (a, rest) := ParseOne(s[b + 1..], !quoted);
        (Slashes(b / 2) + a, rest)
    else if !quoted && IsBlank(s[b]) then (Slashes(b), s[b..])
    else
      var (a, rest) := ParseOne(s[b + 1..], quoted);
      (Slashes(b) + [s[b]] + a, rest)
  }

  /** The arguments of a line, blanks between them skipped. */
  function ParseArgs(s: Text): seq<Text>
    decreases |s|
  {
    if s == [] then []
    else if IsBlank(s[0]) then ParseArgs(s[1..])
    else
      var (a, rest) := ParseOne(s, false);
      [a] + ParseArgs(rest)
  }

  /** The program name: quotation marks only switch blanks on and off, backslashes mean nothing. */
  function ParseProgram(s: Text, quoted: bool): (r: (Text, Text))
    ensures |r.1| <= |s| && '"' !in r.0
  {
    if s == [] then ([], [])
    else if s[0] == '"' then ParseProgram(s[1..], !quoted)
    else if !quoted && IsBlank(s[0]) then ([], s)
    else
      var (a, rest) := ParseProgram(s[1..], quoted);
      ([s[0]] + a, rest)
  }

  function ParseLine(s: Text): seq<Text>
  {
    var (program, rest) := ParseProgram(s, false);
    [program] + ParseArgs(rest)
  }

  // ---- quoting ----

  predicate IsSpecial(c: char) { c == ' ' || c == '\t' || c == '\n' || c == '\U{0B}' || c == '"' }

  predicate HasSpecial(a: Text) { exists i :: 0 <= i < |a| && IsSpecial(a[i]) }

  predicate NeedsQuotes(a: Text) { a == [] || HasSpecial(a) }

  /** The escaped form of `b` backslashes and the character `c` after them. */
  function EscapedPiece(b: nat, c: char): Text
  {
    (if c == '"' then Slashes(2 * b + 1) else Slashes(b)) + [c]
  }

  /** What goes between the quotation marks. */
  function Escaped(a: Text): Text
    decreases |a|
  {
    var b := Leading(a);
    if b == |a| then Slashes(2 * b) else EscapedPiece(b, a[b]) + Escaped(a[b + 1..])
  }

  function Quoted(a: Text): Text
  {
    if NeedsQuotes(a) then ['"'] + Escaped(a) + ['"'] else a
  }

  /** The run of backslashes that starts at `p`. */
  method CountSlashes(arg: Text, p: nat) returns (backslashes: nat)
    requires p <= |arg|
    ensures backslashes == Leading(arg[p..])
  {
    backslashes := 0;
    while p + backslashes < |arg| && arg[p + backslashes] == '\\'
      invariant p + backslashes <= |arg|
      invariant Leading(arg[p..]) == backslashes + Leading(arg[p + backslashes..])
    {
      assert arg[p + backslashes..][1..] == arg[p + backslashes + 1..];
      backslashes := backslashes + 1;
    }
  }

  lemma Suffix(arg: Text, p: nat, b: nat)
    requires p + b <= |arg|
    ensures |arg[p..]| == |arg| - p
    ensures p + b < |arg| ==> arg[p..][b] == arg[p + b] && arg[p..][b + 1..] == arg[p + b + 1..]
  {
  }

  lemma EscapedStep(arg: Text, p: nat)
    requires p <= |arg|
    ensures
      var b := Leading(arg[p..]);
      && p + b <= |arg|
      && Escaped(arg[p..]) ==
           if p + b == |arg| then Slashes(2 * b) else EscapedPiece(b, arg[p + b]) + Escaped(arg[p + b + 1..])
  {
    hide Slashes, EscapedPiece, Leading;
    Suffix(arg, p, Leading(arg[p..]));
  }

  /** One argument appended to a command line. */
  method AppendWindowsArg(line: Text, arg: Text) returns (out: Text)
    ensures out == line + Quoted(arg)
  {
    hide Escaped, Slashes, Leading, HasSpecial;
    var needsQuotes := |arg| == 0 || HasSpecial(arg);
    if !needsQuotes {
      return line + arg;
    }
    out := line + ['"'];
    ghost var start := out;
    var p := 0;
    assert arg[p..] == arg;
    ghost var whole := start + Escaped(arg);
    while true
      invariant p <= |arg|
      invariant out + Escaped(arg[p..]) == whole
      decreases |arg| - p
    {
      EscapedStep(arg, p);
      var backslashes := CountSlashes(arg, p);
      p := p + backslashes;
      if p == |arg| {
        out := out + Slashes(2 * backslashes);
        break;
      }
      var piece := (if arg[p] == '"' then Slashes(2 * backslashes + 1) else Slashes(backslashes)) + [arg[p]];
      Regroup(out, piece, Escaped(arg[p + 1..]));
      out := out + piece;
      p := p + 1;
    }
    assert out == line + ['"'] + Escaped(arg);
    RegroupThree(line, ['"'], Escaped(arg), ['"']);
    out := out + ['"'];
  }

  // ---- one argument ----

  /** What may follow an argument on a line. */
  predicate Ends(rest: Text) { rest == [] || IsBlank(rest[0]) }

  lemma {:induction false} LeadingIs(n: nat, t: Text)
    requires t == [] || t[0] != '\\'
    ensures Leading(Slashes(n) + t) == n
  {
    if n > 0 {
      assert (Slashes(n) + t)[1..] == Slashes(n - 1) + t;
      LeadingIs(n - 1, t);
    }
  }

  lemma Shape(n: nat, c: char, t: Text)
    requires c != '\\'
    ensures
      var s := Slashes(n) + [c] + t;
      Leading(s) == n && n < |s| && s[n] == c && s[n + 1..] == t
  {
    hide Leading, Slashes;
    LeadingIs(n, [c] + t);
    Regroup(Slashes(n), [c], t);
  }

  /** Every text is a run of backslashes, or one followed by another character and the rest. */
  lemma Decompose(a: Text)
    ensures
      var b := Leading(a);
      if b == |a| then a == Slashes(b) else a == Slashes(b) + [a[b]] + a[b + 1..] && a[b] != '\\'
  {
    hide Leading, Slashes;
    var b := Leading(a);
    AllSlashes(a[..b]);
    CutAt(a, b);
  }

  lemma AllSlashes(s: Text)
    requires forall i :: 0 <= i < |s| ==> s[i] == '\\'
    ensures s == Slashes(|s|)
  {
  }

  lemma CutAt(a: Text, b: nat)
    requires b <= |a|
    ensures if b == |a| then a == a[..b] else a == a[..b] + [a[b]] + a[b + 1..]
  {
  }

  /** An odd run of backslashes makes the quotation mark literal. */
  lemma StepEscapedMark(n: nat, t: Text, quoted: bool)
    requires n % 2 == 1
    ensures
      var (a, rest) := ParseOne(t, quoted);
      ParseOne(Slashes(n) + ['"'] + t, quoted) == (Slashes(n / 2) + ['"'] + a, rest)
  {
    hide Leading, Slashes;
    Shape(n, '"', t);
  }

  /** An even one leaves it a delimiter, unless inside quotes another mark follows. */
  lemma StepMark(n: nat, t: Text, quoted: bool)
    requires n % 2 == 0 && !(quoted && t != [] && t[0] == '"')
    ensures
      var (a, rest) := ParseOne(t, !quoted);
      ParseOne(Slashes(n) + ['"'] + t, quoted) == (Slashes(n / 2) + a, rest)
  {
    hide Leading, Slashes;
    Shape(n, '"', t);
  }

  /** Backslashes before any other character are literal. */
  lemma StepOther(n: nat, c: char, t: Text, quoted: bool)
    requires c != '\\' && c != '"' && (quoted || !IsBlank(c))
    ensures
      var (a, rest) := ParseOne(t, quoted);
      ParseOne(Slashes(n) + [c] + t, quoted) == (Slashes(n) + [c] + a, rest)
  {
    hide Leading, Slashes;
    Shape(n, c, t);
  }

  /** Inside quotation marks the escaped form of an argument parses to the argument. */
  lemma {:induction false} EscapedParses(a: Text, rest: Text)
    requires Ends(rest)
    ensures ParseOne(Escaped(a) + ['"'] + rest, true) == (a, rest)
    decreases |a|
  {
    hide ParseOne, Leading, Slashes, Ends;
    var b := Leading(a);
    Decompose(a);
    if b == |a| {
      ClosesHere(rest);
      StepMark(2 * b, rest, true);
      assert Slashes(b) + [] == a;
    } else {
      var tail := a[b + 1..];
      var t := Escaped(tail) + ['"'] + rest;
      EscapedParses(tail, rest);
      RegroupThree(EscapedPiece(b, a[b]), Escaped(tail), ['"'], rest);
      if a[b] == '"' {
        StepEscapedMark(2 * b + 1, t, true);
      } else {
        StepOther(b, a[b], t, true);
      }
    }
  }

  /** Outside quotation marks the argument ends where a blank or the end of the line stands. */
  lemma ClosesHere(rest: Text)
    requires Ends(rest)
    ensures ParseOne(rest, false) == ([], rest)
    ensures rest == [] || rest[0] != '"'
  {
  }

  lemma SlashesEndHere(n: nat, rest: Text)
    requires Ends(rest)
    ensures ParseOne(Slashes(n) + rest, false) == (Slashes(n), rest)
  {
    LeadingIs(n, rest);
    var s := Slashes(n) + rest;
    assert s[n..] == rest;
  }

  lemma NoSpecialTail(a: Text, k: nat)
    requires !HasSpecial(a) && k < |a|
    ensures !HasSpecial(a[k + 1..]) && !IsSpecial(a[k])
  {
    var tail := a[k + 1..];
    forall i | 0 <= i < |tail|
      ensures !IsSpecial(tail[i])
    {
      assert tail[i] == a[k + 1 + i];
    }
  }

  /** Free of what has a meaning outside quotation marks. */
  predicate Literal(a: Text) { '"' !in a && ' ' !in a && '\t' !in a }

  lemma NoSpecialIsLiteral(a: Text)
    requires !HasSpecial(a)
    ensures Literal(a)
  {
  }

  lemma LiteralTail(a: Text, k: nat)
    requires Literal(a) && k < |a|
    ensures Literal(a[k + 1..]) && a[k] != '"' && !IsBlank(a[k])
  {
    assert a[k] in a;
  }

  /** Such an argument parses to itself. */
  lemma {:induction false} PlainParses(a: Text, rest: Text)
    requires Literal(a) && Ends(rest)
    ensures ParseOne(a + rest, false) == (a, rest)
    decreases |a|
  {
    hide ParseOne, Leading, Slashes, Literal, Ends;
    var b := Leading(a);
    Decompose(a);
    if b == |a| {
      SlashesEndHere(b, rest);
    } else {
      var tail := a[b + 1..];
      LiteralTail(a, b);
      PlainParses(tail, rest);
      StepOther(b, a[b], tail + rest, false);
      Regroup(Slashes(b) + [a[b]], tail, rest);
    }
  }

  lemma QuotedParses(a: Text, rest: Text)
    requires Ends(rest)
    ensures ParseOne(Quoted(a) + rest, false) == (a, rest)
    ensures Quoted(a) != [] && !IsBlank(Quoted(a)[0])
  {
    hide ParseOne, Escaped, HasSpecial, Ends;
    if NeedsQuotes(a) {
      EscapedParses(a, rest);
      var t := Escaped(a) + ['"'] + rest;
      RegroupThree(['"'], Escaped(a), ['"'], rest);
      StepMark(0, t, false);
      NoSlashes(['"']);
      NoSlashes(a);
    } else {
      NoSpecialIsLiteral(a);
      PlainParses(a, rest);
      NoSpecialTail(a, 0);
    }
  }

  lemma NoSlashes(t: Text)
    ensures Slashes(0) + t == t
  {
  }

  // ---- when quoting is needed ----

  /** Parsing never lengthens, and keeps the length only of text it copies. */
  lemma {:induction false} ParseOneCopies(s: Text, quoted: bool)
    ensures
      var (a, rest) := ParseOne(s, quoted);
      && |a| + |rest| <= |s|
      && (|a| + |rest| == |s| ==> '"' !in a)
      && (!quoted && '"' !in s ==> ' ' !in a && '\t' !in a)
    decreases |s|
  {
    hide Leading, Slashes;
    var b := Leading(s);
    if b == |s| || (s[b] != '"' && !quoted && IsBlank(s[b])) {
    } else if s[b] == '"' && b % 2 == 0 && quoted && b + 1 < |s| && s[b + 1] == '"' {
      ParseOneCopies(s[b + 2..], quoted);
    } else {
      ParseOneCopies(s[b + 1..], if s[b] == '"' && b % 2 == 0 then !quoted else quoted);
      assert '"' !in s ==> '"' !in s[b + 1..];
    }
  }

  lemma {:induction false} ParseArgsShortens(s: Text)
    ensures forall i :: 0 <= i < |ParseArgs(s)| ==> |ParseArgs(s)[i]| <= |s|
    decreases |s|
  {
    hide ParseOne;
    if s != [] {
      if IsBlank(s[0]) {
        ParseArgsShortens(s[1..]);
      } else {
        ParseOneCopies(s, false);
        ParseArgsShortens(ParseOne(s, false).1);
      }
    }
  }

  /** Which arguments the parser reads back as they stand. */
  lemma BareParsesIff(a: Text)
    ensures ParseArgs(a) == [a] <==> a != [] && Literal(a)
  {
    hide ParseOne;
    if a != [] && Literal(a) {
      PlainParses(a, []);
      assert a + [] == a && a[0] in a;
    } else if a != [] && IsBlank(a[0]) {
      ParseArgsShortens(a[1..]);
    } else if a != [] {
      ParseOneCopies(a, false);
      assert ParseArgs(a)[0] == ParseOne(a, false).0;
    }
  }

  lemma {:induction false} EscapedIsLonger(a: Text)
    ensures |Escaped(a)| >= |a|
    decreases |a|
  {
    if Leading(a) < |a| { EscapedIsLonger(a[Leading(a) + 1..]); }
  }

  /** Left as they are: the arguments that parse as they stand, except those with a line break in them. */
  lemma LeftBareIff(a: Text)
    ensures Quoted(a) == a <==> ParseArgs(a) == [a] && '\n' !in a && '\U{0B}' !in a
  {
    hide Escaped, ParseArgs;
    BareParsesIff(a);
    EscapedIsLonger(a);
    if HasSpecial(a) {
      var i :| 0 <= i < |a| && IsSpecial(a[i]);
      assert a[i] in a;
    }
  }

  // ---- a line of arguments ----

  /** Each argument quoted, with a space in front. */
  function SpacedArgs(args: seq<Text>): (r: Text)
    ensures Ends(r)
  {
    if args == [] then [] else [' '] + Quoted(args[0]) + SpacedArgs(args[1..])
  }

  lemma {:induction false} ArgsParse(args: seq<Text>)
    ensures ParseArgs(SpacedArgs(args)) == args
  {
    if args != [] {
      var rest := SpacedArgs(args[1..]);
      var s := Quoted(args[0]) + rest;
      assert SpacedArgs(args) == [' '] + s;
      QuotedParses(args[0], rest);
      ArgsParse(args[1..]);
      assert ParseArgs(SpacedArgs(args)) == ParseArgs(s);
    }
  }

  // ---- the program name ----

  /** The names the special rule for the program leaves as they are. */
  predicate ProgramSafe(p: Text)
  {
    '"' !in p && (NeedsQuotes(p) ==> p == [] || p[|p| - 1] != '\\')
  }

  /** Without quotation marks only a final run of backslashes changes: it is doubled. */
  lemma {:induction false} EscapedIs(a: Text)
    requires '"' !in a
    ensures exists n: nat :: Escaped(a) == a + Slashes(n) && (n == 0 <==> a == [] || a[|a| - 1] != '\\')
    decreases |a|
  {
    hide Leading;
    var b := Leading(a);
    Decompose(a);
    if b == |a| {
      assert Escaped(a) == a + Slashes(b);
    } else {
      var tail := a[b + 1..];
      EscapedIs(tail);
      var n: nat :| Escaped(tail) == tail + Slashes(n) && (n == 0 <==> tail == [] || tail[|tail| - 1] != '\\');
      SplitsAt(a, Slashes(b) + [a[b]], tail, Slashes(n));
      assert Escaped(a) == a + Slashes(n);
    }
  }

  lemma SplitsAt(a: Text, head: Text, tail: Text, more: Text)
    requires a == head + tail
    ensures a + more == head + (tail + more)
    ensures tail != [] ==> a[|a| - 1] == tail[|tail| - 1]
    ensures tail == [] && head != [] ==> a[|a| - 1] == head[|head| - 1]
  {
  }

  lemma {:induction false} ProgramParses(a: Text, rest: Text)
    requires '"' !in a
    ensures ParseProgram(a + ['"'] + rest, true).0 == a + ParseProgram(rest, false).0
    ensures ParseProgram(a + ['"'] + rest, true).1 == ParseProgram(rest, false).1
  {
    if a == [] {
      assert a + ['"'] + rest == ['"'] + rest;
      assert (['"'] + rest)[1..] == rest;
    } else {
      ProgramParses(a[1..], rest);
      assert a == [a[0]] + a[1..];
      assert (a + ['"'] + rest)[1..] == a[1..] + ['"'] + rest;
    }
  }

  lemma {:induction false} PlainProgramParses(a: Text, rest: Text)
    requires !HasSpecial(a) && Ends(rest)
    ensures ParseProgram(a + rest, false) == (a, rest)
  {
    if a == [] {
      assert a + rest == rest;
    } else {
      NoSpecialTail(a, 0);
      assert a == [a[0]] + a[1..];
      PlainProgramParses(a[1..], rest);
      assert (a + rest)[1..] == a[1..] + rest;
    }
  }

  lemma OpeningMark(t: Text)
    ensures ParseProgram(['"'] + t, false) == ParseProgram(t, true)
  {
    assert (['"'] + t)[1..] == t;
  }

  /** The program name survives exactly when it is safe, and then the arguments start right behind it. */
  lemma ProgramRoundTripIff(p: Text, rest: Text)
    requires Ends(rest)
    ensures ProgramSafe(p) ==> ParseProgram(Quoted(p) + rest, false) == (p, rest)
    ensures ParseProgram(Quoted(p) + rest, false).0 == p ==> ProgramSafe(p)
  {
    if '"' !in p {
      if NeedsQuotes(p) {
        hide Escaped, HasSpecial;
        EscapedIs(p);
        var e := Escaped(p);
        var n: nat :| e == p + Slashes(n) && (n == 0 <==> p == [] || p[|p| - 1] != '\\');
        assert '"' !in Slashes(n) && (n == 0 <==> e == p);
        ProgramParses(e, rest);
        RegroupThree(['"'], e, ['"'], rest);
        OpeningMark(e + ['"'] + rest);
        assert ParseProgram(rest, false) == ([], rest);
        assert e + [] == e;
      } else {
        PlainProgramParses(p, rest);
      }
    }
  }

  // ---- the whole command line ----

  function CommandLine(args: seq<Text>): Text
    requires args != []
  {
    Quoted(args[0]) + SpacedArgs(args[1..])
  }

  /** The child gets exactly the vector, whatever the arguments are, exactly when the program name is safe. */
  lemma CommandLineRoundTripIff(args: seq<Text>)
    requires args != []
    ensures ParseLine(CommandLine(args)) == args <==> ProgramSafe(args[0])
    ensures ProgramSafe(args[0]) ==> ParseLine(CommandLine(args))[1..] == args[1..]
  {
    var rest := SpacedArgs(args[1..]);
    ProgramRoundTripIff(args[0], rest);
    ArgsParse(args[1..]);
    var line := ParseLine(CommandLine(args));
    assert line[0] == ParseProgram(Quoted(args[0]) + rest, false).0;
    if ProgramSafe(args[0]) {
      assert line == [args[0]] + args[1..];
    }
  }

  // ---- the blob ----

  const NUL: char := '\0'

  /** The parts of a blob between its NULs. */
  function Pieces(blob: Text): (r: seq<Text>)
    ensures |r| > 0
  {
    if blob == [] then [[]]
    else
      var rest := Pieces(blob[1..]);
      if blob[0] == NUL then [[]] + rest
      else [[blob[0]] + rest[0]] + rest[1..]
  }

  function Joined(args: seq<Text>): Text
  {
    if args == [] then []
    else if |args| == 1 then args[0]
    else args[0] + [NUL] + Joined(args[1..])
  }

  lemma {:induction false} PieceStep(a: Text, t: Text)
    requires NUL !in a
    ensures Pieces(a + [NUL] + t) == [a] + Pieces(t)
  {
    if a == [] {
      assert a + [NUL] + t == [NUL] + t;
      assert ([NUL] + t)[1..] == t;
    } else {
      PieceStep(a[1..], t);
      assert (a + [NUL] + t)[1..] == a[1..] + [NUL] + t;
      assert [a[0]] + a[1..] == a;
    }
  }

  lemma {:induction false} LastPiece(a: Text)
    requires NUL !in a
    ensures Pieces(a) == [a]
  {
    if a != [] {
      LastPiece(a[1..]);
      assert [a[0]] + a[1..] == a;
    }
  }

  /** Splitting undoes joining, for arguments without NULs. */
  lemma {:induction false} SplitUndoesJoin(args: seq<Text>)
    requires args != [] && forall i :: 0 <= i < |args| ==> NUL !in args[i]
    ensures Pieces(Joined(args)) == args
  {
    if |args| == 1 {
      LastPiece(args[0]);
    } else {
      SplitUndoesJoin(args[1..]);
      PieceStep(args[0], Joined(args[1..]));
    }
  }

  /** The index of the next NUL, or the end. */
  method SkipPiece(blob: Text, at: nat) returns (end: nat)
    requires at <= |blob|
    ensures at <= end <= |blob| && NUL !in blob[at..end] && (end < |blob| ==> blob[end] == NUL)
  {
    end := at;
    while end < |blob| && blob[end] != NUL
      invariant at <= end <= |blob| && NUL !in blob[at..end]
    {
      end := end + 1;
    }
  }

  /** The parts that are still to come at `at`. */
  function PiecesFrom(blob: Text, at: nat): seq<Text>
    requires at <= |blob| + 1
  {
    if at <= |blob| then Pieces(blob[at..]) else []
  }

  lemma PiecesAtEnds(blob: Text)
    ensures PiecesFrom(blob, 0) == Pieces(blob) && PiecesFrom(blob, |blob| + 1) == []
  {
    assert blob[0..] == blob;
  }

  lemma TakePiece(blob: Text, at: nat, end: nat)
    requires at <= end <= |blob| && NUL !in blob[at..end] && (end < |blob| ==> blob[end] == NUL)
    ensures PiecesFrom(blob, at) == [blob[at..end]] + PiecesFrom(blob, end + 1)
  {
    hide Pieces;
    if end < |blob| {
      PieceStep(blob[at..end], blob[end + 1..]);
      assert blob[at..] == blob[at..end] + [NUL] + blob[end + 1..];
    } else {
      LastPiece(blob[at..end]);
      assert blob[at..] == blob[at..end];
    }
  }

  lemma PrefixIs(all: seq<Text>, out: seq<Text>, rest: seq<Text>)
    requires all == out + rest
    ensures |out| <= |all| && out == all[..|out|] && (rest == [] ==> out == all)
    ensures |out| == |all| ==> out == all
  {
  }

  /** At most `count` of the parts. */
  function First(all: seq<Text>, count: int): seq<Text>
  {
    if count <= 0 then [] else if count < |all| then all[..count] else all
  }

  /** The first `count` parts of a blob. */
  method SplitBlob(blob: Text, count: int) returns (out: seq<Text>)
    ensures out == First(Pieces(blob), count)
  {
    hide Pieces, PiecesFrom;
    out := [];
    if count <= 0 {
      return;
    }
    PiecesAtEnds(blob);
    var at := 0;
    while |out| < count && at <= |blob|
      invariant |out| <= count && at <= |blob| + 1
      invariant Pieces(blob) == out + PiecesFrom(blob, at)
      decreases |blob| + 1 - at
    {
      var end := SkipPiece(blob, at);
      TakePiece(blob, at, end);
      Regroup(out, [blob[at..end]], PiecesFrom(blob, end + 1));
      out := out + [blob[at..end]];
      at := end + 1;
    }
    PrefixIs(Pieces(blob), out, PiecesFrom(blob, at));
  }

  /** The command line the runtime starts a child with; none when there is no argument at all. */
  method BuildCommandLine(blob: Text, count: int) returns (line: Text)
    ensures line == if count <= 0 then [] else CommandLine(First(Pieces(blob), count))
  {
    hide Pieces, Quoted, CommandLine;
    var args := SplitBlob(blob, count);
    line := [];
    if args == [] {
      return;
    }
    for i := 0 to |args|
      invariant line == if i == 0 then [] else CommandLine(args[..i])
    {
      if i > 0 {
        line := line + [' '];
      }
      line := AppendWindowsArg(line, args[i]);
      CommandLineGrows(args[..i], args[i]);
      assert args[..i + 1] == args[..i] + [args[i]];
    }
    assert args[..|args|] == args;
  }

  lemma CommandLineGrows(args: seq<Text>, a: Text)
    ensures CommandLine(args + [a]) == if args == [] then Quoted(a) else CommandLine(args) + [' '] + Quoted(a)
  {
    if args != [] {
      SpacedArgsGrow(args[1..], a);
      assert (args + [a])[1..] == args[1..] + [a];
    }
  }

  lemma {:induction false} SpacedArgsGrow(args: seq<Text>, a: Text)
    ensures SpacedArgs(args + [a]) == SpacedArgs(args) + [' '] + Quoted(a)
  {
    if args == [] {
      assert args + [a] == [a];
    } else {
      SpacedArgsGrow(args[1..], a);
      assert (args + [a])[1..] == args[1..] + [a];
    }
  }

  /** From blob to child: the arguments arrive as they were, for every vector with a safe program name. */
  method SpawnArgs(args: seq<Text>) returns (received: seq<Text>)
    requires args != [] && ProgramSafe(args[0])
    requires forall i :: 0 <= i < |args| ==> NUL !in args[i]
    ensures received == args
  {
    SplitUndoesJoin(args);
    var line := BuildCommandLine(Joined(args), |args|);
    assert args[..|args|] == args;
    CommandLineRoundTripIff(args);
    received := ParseLine(line);
  }
}