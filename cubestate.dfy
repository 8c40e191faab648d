/** The line compiler of cubestate.js: every line of a program is a string of
    cube moves, optionally followed by a `.N` or `,N` token; the moves are
    applied to one cube that lives as long as the compiler, and each line then
    emits the first facelets of the cube written in a six-symbol Brainfuck
    alphabet, followed by the output or input command. */
module CubeState {
  import opened Text
  import opened CubeModel

  /** The symbol of each colour (cubestate.js:35): colour 0 is `+`, 1 `[`,
      2 `>`, 3 `]`, 4 `<`, 5 `-`. */
  const Glyphs: string := "+[>]<-"

  /** `["+", "[", ">", "]", "<", "-"][e]` inside `join("")`: a colour outside
      0..5 indexes past the array, gives undefined, and `join` writes it as
      the empty string. */
  function Glyph(e: int): (r: string)
    ensures |r| <= 1
    ensures |r| == 1 <==> 0 <= e < 6
    ensures |r| == 1 ==> r[0] in Glyphs && Colour(r[0]) == e
  {
    if 0 <= e < 6 then [Glyphs[e]] else ""
  }

  /** `s.slice(0, n).map(glyph).join("")`. */
  function Render(s: seq<int>, n: nat): string
    requires n <= |s|
    decreases n, s
  {
    if n == 0 then "" else Render(s, n - 1) + Glyph(s[n - 1])
  }

  /** Rendering writes only the six symbols, and for colours in 0..5 one symbol
      per facelet, in order. */
  lemma {:induction false} RenderFacelets(s: seq<int>, n: nat)
    requires n <= |s|
    ensures |Render(s, n)| <= n
    ensures forall c :: c in Render(s, n) ==> c in Glyphs
    ensures (forall k :: 0 <= k < n ==> 0 <= s[k] < 6) ==>
      |Render(s, n)| == n && forall k :: 0 <= k < n ==> Render(s, n)[k] == Glyphs[s[k]]
  {
    if n > 0 {
      RenderFacelets(s, n - 1);
    }
  }

  /** A facelet that holds no colour is written as nothing, so fewer symbols
      come out than facelets go in. */
  lemma {:induction false} RenderSkipsNonColour(s: seq<int>, n: nat, k: int)
    requires n <= |s| && 0 <= k < n && !(0 <= s[k] < 6)
    ensures |Render(s, n)| < n
    decreases n
  {
    assert |Render(s, n)| == |Render(s, n - 1)| + |Glyph(s[n - 1])|;
    if k < n - 1 {
      RenderSkipsNonColour(s, n - 1, k);
    } else {
      assert |Render(s, n - 1)| <= n - 1 by {
        RenderFacelets(s, n - 1);
      }
    }
  }

  /** With the lookup of cube.js:111 as written (the line itself still runs
      through the joined moves of cubestate.js:33), a line `constructor` is no
      error. On a state array whose property "undefined" holds no colour, the
      move leaves facelet 0 without a colour, and the nine facelets the line
      emits come out as fewer than nine symbols. */
  lemma ConstructorLineShort(s: seq<int>, named: int)
    requires SolvedColours(s) && !(0 <= named < 6)
    ensures MoveAppliedAsWritten(s, named, "constructor", false).run.ok
    ensures |Render(MoveAppliedAsWritten(s, named, "constructor", false).run.state, 9)| < 9
  {
    InheritedBlanks(s, named, "constructor");
    RenderSkipsNonColour(MoveAppliedAsWritten(s, named, "constructor", false).run.state, 9, 0);
  }

  /** With the same lookup as written, a line `constructor` right after a
      move `hasOwnProperty'` (or any inherited inverse of `length` 1) copies
      back the facelet that move stored, so the line emits all nine symbols. */
  lemma ConstructorAfterInheritedInverse(s: seq<int>, named: int, first: string)
    requires SolvedColours(s) && InheritedLength(first) == Some(1)
    ensures MoveAppliedAsWritten(s, named, first, true).run.ok
    ensures var t := MoveAppliedAsWritten(s, named, first, true);
      MoveAppliedAsWritten(t.run.state, t.named, "constructor", false).run.ok &&
      |Render(MoveAppliedAsWritten(t.run.state, t.named, "constructor", false).run.state, 9)| == 9
  {
    InheritedPairRestores(s, named, first, "constructor");
    NineOfEachColour(s);
    RenderFacelets(s, 9);
  }

  /** The colour a symbol stands for: its position in `Glyphs`. */
  function Colour(c: char): int
  {
    if c == '+' then 0 else if c == '[' then 1 else if c == '>' then 2
    else if c == ']' then 3 else if c == '<' then 4 else 5
  }

  /** Reading the colours back from rendered symbols. */
  function Colours(out: string): (r: seq<int>)
    ensures |r| == |out|
  {
    seq(|out|, k requires 0 <= k < |out| => Colour(out[k]))
  }

  /** Each colour is read back from its own symbol. */
  lemma ColourOfGlyph(e: int)
    requires 0 <= e < 6
    ensures Colour(Glyphs[e]) == e
  {
  }

  /** Rendering loses nothing: the colours can be read back from the symbols. */
  lemma RenderRoundTrip(s: seq<int>, n: nat)
    requires n <= |s|
    requires forall k :: 0 <= k < n ==> 0 <= s[k] < 6
    ensures Colours(Render(s, n)) == s[..n]
  {
    var r := Render(s, n);
    RenderFacelets(s, n);
    forall k | 0 <= k < n
      ensures Colours(r)[k] == s[k]
    {
      assert r[k] == Glyphs[s[k]];
      ColourOfGlyph(s[k]);
    }
  }

  // ---------------------------------------------------------------------
  // One line

  /** The outcome of compiling: the cube reached, the `codestack` built, and
      whether the source got to the end without throwing. When `ok` is false
      the source throws, so `compile` returns nothing; `output` is then what
      `codestack` held when it threw, and `state` what the cube holds. */
  datatype Compilation = Compilation(state: seq<int>, output: string, ok: bool)

  /** How many facelets a line can emit: a slice end below 10. */
  type Width = n: int | 0 <= n <= 9

  /** What a line of the program asks for (cubestate.js:17-31): the moves to
      apply, how many facelets to emit, and the command to emit after them. */
  datatype Line = Line(moves: string, width: Width, command: string)

  /** The last space-separated token of a line. */
  function LastToken(line: string): string
  {
    var toks := Split(line, ' ');
    toks[|toks| - 1]
  }

  /** The command a last token ends its line with (cubestate.js:23-31): `.` for
      a token that starts with `.`, `,` for one that starts with `,`, nothing
      for any other (the empty token included, whose `[0]` is undefined). */
  function Punctuation(tok: string): (r: string)
    ensures r == "." || r == "," || r == ""
    ensures r != "" <==> |tok| > 0 && (tok[0] == '.' || tok[0] == ',')
    ensures r != "" ==> r == [tok[0]]
  {
    if |tok| > 0 && tok[0] == '.' then "."
    else if |tok| > 0 && tok[0] == ',' then ","
    else ""
  }

  /** The decimal digits, digit d at index d. */
  const Digits: string := "0123456789"

  /** `+tok[1]` as a slice end (cubestate.js:35): a decimal digit gives its
      value; a missing second character (`+undefined`) or any other character
      gives NaN (or 0, for whitespace), and `slice(0, NaN)` is `slice(0, 0)`. */
  function SliceLength(tok: string): (n: Width)
    ensures |tok| >= 2 && tok[1] in Digits ==> Digits[n] == tok[1]
    ensures n > 0 ==> |tok| >= 2 && tok[1] == Digits[n]
  {
    if |tok| >= 2 && '0' <= tok[1] <= '9' then tok[1] as int - '0' as int else 0
  }

  /** One line split at spaces: all of its tokens are moves, less the last one
      when that one starts with `.` or `,`; such a line emits N facelets and
      the command, any other line nine facelets and nothing more. The moves
      are joined again by spaces for `apply`. */
  function ParseLine(line: string): Line
  {
    var toks := Split(line, ' ');
    var last := toks[|toks| - 1];
    var command := Punctuation(last);
    if command != "" then Line(Join(toks[..|toks| - 1], ' '), SliceLength(last), command)
    else Line(Join(toks, ' '), 9, "")
  }

  /** A line without a `.N` / `,N` token applies the whole line as its moves
      and emits nine facelets. */
  lemma PlainLine(line: string)
    requires Punctuation(LastToken(line)) == ""
    ensures ParseLine(line) == Line(line, 9, "")
  {
    JoinSplit(line, ' ');
  }

  /** A `.N` / `,N` token is cut off the moves: the moves, a space and the
      token make up the line again, and a line that is only the token has no
      moves. It sets the width to N and the command to its first character. */
  lemma PunctuatedLine(line: string)
    requires Punctuation(LastToken(line)) != ""
    ensures ParseLine(line).width == SliceLength(LastToken(line))
    ensures ParseLine(line).command == [LastToken(line)[0]]
    ensures |Split(line, ' ')| == 1 ==> ParseLine(line).moves == "" && line == LastToken(line)
    ensures |Split(line, ' ')| > 1 ==> ParseLine(line).moves + " " + LastToken(line) == line
  {
    var toks := Split(line, ' ');
    var n := |toks|;
    JoinSplit(line, ' ');
    assert toks == toks[..n - 1] + [toks[n - 1]];
    if n > 1 {
      JoinPush(toks[..n - 1], toks[n - 1], ' ');
    }
  }

  /** What a line appends to `codestack` once its moves have left the cube in
      state s (cubestate.js:35). */
  function Emitted(s: seq<int>, l: Line): string
    requires |s| == 54
  {
    Render(s, l.width) + l.command
  }

  /** One pass of the loop of cubestate.js:16-36 from cube state s: apply the
      moves (cubestate.js:33), then emit. */
  function LineCompiled(s: seq<int>, l: Line): (r: Compilation)
    requires |s| == 54
    ensures |r.state| == 54
    ensures !r.ok ==> r.output == ""
  {
    var run := Applied(s, l.moves);
    if !run.ok then Compilation(run.state, "", false)
    else Compilation(run.state, Emitted(run.state, l), true)
  }

  /** A line whose moves leave the cube with nine facelets of each colour emits
      exactly its width in symbols, which spell the first facelets of the
      cube, then its command. */
  lemma EmittedShape(s: seq<int>, l: Line)
    requires SolvedColours(s)
    ensures |Emitted(s, l)| == l.width + |l.command|
    ensures Colours(Emitted(s, l)[..l.width]) == s[..l.width]
    ensures Emitted(s, l)[l.width..] == l.command
  {
    NineOfEachColour(s);
    var out := Emitted(s, l);
    RenderRoundTrip(s, l.width);
    RenderFacelets(s, l.width);
    assert out[..l.width] == Render(s, l.width);
  }

  /** A line whose only token is `.N` or `,N` has no moves, and applying the
      empty move string throws: the empty token names no move. */
  lemma BarePunctuationThrows(s: seq<int>, line: string)
    requires |s| == 54
    requires Punctuation(LastToken(line)) != "" && ' ' !in line
    ensures LineCompiled(s, ParseLine(line)) == Compilation(s, "", false)
  {
    SplitSingle(line, ' ');
    PunctuatedLine(line);
    UnknownTokenFails(s, "");
  }

  // ---------------------------------------------------------------------
  // A whole program

  /** The trailing empty lines dropped (cubestate.js:12-14); `None` where the
      loop runs off the front of the array and `code[-1].length` throws. */
  function Trimmed(lines: seq<string>): (r: Option<seq<string>>)
    ensures r.None? <==> forall k :: 0 <= k < |lines| ==> lines[k] == ""
    ensures r.Some? ==>
      && 1 <= |r.value| <= |lines|
      && r.value == lines[..|r.value|]
      && r.value[|r.value| - 1] != ""
      && forall k :: |r.value| <= k < |lines| ==> lines[k] == ""
  {
    if lines == [] then None
    else if lines[|lines| - 1] == "" then Trimmed(lines[..|lines| - 1])
    else Some(lines)
  }

  /** Every line parsed. */
  function Parsed(lines: seq<string>): (r: seq<Line>)
    ensures |r| == |lines|
  {
    seq(|lines|, k requires 0 <= k < |lines| => ParseLine(lines[k]))
  }

  /** The lines compiled one after another from cube state s, stopping at the
      first one that throws. */
  function LinesCompiled(s: seq<int>, lines: seq<Line>): (r: Compilation)
    requires |s| == 54
    ensures |r.state| == 54
    decreases |lines|
  {
    if lines == [] then Compilation(s, "", true)
    else
      var r := LinesCompiled(s, lines[..|lines| - 1]);
      if !r.ok then r
      else
        var l := LineCompiled(r.state, lines[|lines| - 1]);
        Compilation(l.state, r.output + l.output, l.ok)
  }

  /** `compile(code)` (cubestate.js:7-39) from cube state s. */
  function Compiled(s: seq<int>, code: string): (r: Compilation)
    requires |s| == 54
    ensures |r.state| == 54
  {
    match Trimmed(Split(code, '\n'))
    case None => Compilation(s, "", false)
    case Some(lines) => LinesCompiled(s, Parsed(lines))
  }

  /** One more line runs from the cube the others left, unless they threw. */
  lemma LinesPush(s: seq<int>, lines: seq<Line>, l: Line)
    requires |s| == 54
    ensures LinesCompiled(s, lines + [l]) ==
      var r := LinesCompiled(s, lines);
      if !r.ok then r
      else
        var q := LineCompiled(r.state, l);
        Compilation(q.state, r.output + q.output, q.ok)
  {
    assert (lines + [l])[..|lines|] == lines;
  }

  /** The lines run in order on one cube: the second part starts from the cube
      the first part left, and its output follows the first part's. */
  lemma {:induction false} LinesAppend(s: seq<int>, a: seq<Line>, b: seq<Line>)
    requires |s| == 54
    ensures LinesCompiled(s, a + b) ==
      var r := LinesCompiled(s, a);
      if !r.ok then r
      else
        var q := LinesCompiled(r.state, b);
        Compilation(q.state, r.output + q.output, q.ok)
    decreases |b|
  {
    if b == [] {
      assert a + b == a;
    } else {
      var n := |b|;
      var init, line := b[..n - 1], b[n - 1];
      SplitLast(a, b);
      LinesAppend(s, a, init);
      LinesPush(s, a + init, line);
      var r := LinesCompiled(s, a);
      if r.ok {
        LinesPush(r.state, init, line);
        var q := LinesCompiled(r.state, init);
        if q.ok {
          var l := LineCompiled(q.state, line);
          Associative(r.output, q.output, l.output);
        }
      }
    }
  }

  /** `a + b` is `a` and all of `b` but its last element, then that element. */
  lemma SplitLast<T>(a: seq<T>, b: seq<T>)
    requires b != []
    ensures a + b == (a + b[..|b| - 1]) + [b[|b| - 1]]
    ensures b == b[..|b| - 1] + [b[|b| - 1]]
  {
  }

  /** Once a line throws, the lines after it are never compiled. */
  lemma FailureStops(s: seq<int>, lines: seq<Line>, i: int)
    requires |s| == 54 && 0 <= i <= |lines|
    requires !LinesCompiled(s, lines[..i]).ok
    ensures LinesCompiled(s, lines) == LinesCompiled(s, lines[..i])
  {
    Rejoin(lines, i);
    LinesAppend(s, lines[..i], lines[i..]);
  }

  /** A sequence is its prefix followed by the rest. */
  lemma Rejoin<T>(x: seq<T>, i: int)
    requires 0 <= i <= |x|
    ensures x[..i] + x[i..] == x
  {
  }

  /** The parsed prefix grows by one parsed line. */
  lemma ParsedPush(lines: seq<string>, i: int)
    requires 0 <= i < |lines|
    ensures Parsed(lines)[..i + 1] == Parsed(lines)[..i] + [ParseLine(lines[i])]
  {
  }

  /** The steps of cubestate.js:17-31 and 35 compute `ParseLine`. */
  lemma ParseSteps(text: string, line: seq<string>, last: string, moves: seq<string>,
                   n: int, command: string)
    requires line == Split(text, ' ') && last == line[|line| - 1]
    requires var cut := |last| > 0 && (last[0] == '.' || last[0] == ',');
      && moves == (if cut then line[..|line| - 1] else line)
      && n == (if cut then SliceLength(last) else 9)
      && command == (if |last| > 0 && last[0] == '.' then "." else if |last| > 0 && last[0] == ',' then "," else "")
    ensures ParseLine(text) == Line(Join(moves, ' '), n, command)
  {
  }

  /** Concatenation of strings is associative. */
  lemma Associative(x: string, y: string, z: string)
    ensures (x + y) + z == x + (y + z)
  {
  }

  /** Compiling moves facelets around and changes no colour count. */
  lemma {:induction false} LinesKeepColours(s: seq<int>, lines: seq<Line>)
    requires |s| == 54
    ensures multiset(LinesCompiled(s, lines).state) == multiset(s)
    decreases |lines|
  {
    if lines != [] {
      var init := lines[..|lines| - 1];
      LinesKeepColours(s, init);
      var r := LinesCompiled(s, init);
      if r.ok {
        var run := Applied(r.state, lines[|lines| - 1].moves);
      }
    }
  }

  /** Symbols and commands the lines emit when they all run through. */
  function Widths(lines: seq<Line>): nat
  {
    if lines == [] then 0
    else Widths(lines[..|lines| - 1]) + lines[|lines| - 1].width + |lines[|lines| - 1].command|
  }

  /** From a cube with nine facelets of each colour, a program that runs
      through writes exactly the widths of its lines in symbols plus their
      commands, and nothing but Brainfuck commands. */
  lemma {:induction false} LinesOutput(s: seq<int>, lines: seq<Line>)
    requires SolvedColours(s)
    requires forall k :: 0 <= k < |lines| ==> lines[k].command in {"", ".", ","}
    ensures LinesCompiled(s, lines).ok ==> |LinesCompiled(s, lines).output| == Widths(lines)
    ensures forall c :: c in LinesCompiled(s, lines).output ==> c in "+[>]<-.,"
    decreases |lines|
  {
    if lines != [] {
      var init := lines[..|lines| - 1];
      LinesOutput(s, init);
      var r := LinesCompiled(s, init);
      if r.ok {
        LinesKeepColours(s, init);
        var l := lines[|lines| - 1];
        var run := Applied(r.state, l.moves);
        if run.ok {
          EmittedShape(run.state, l);
          RenderFacelets(run.state, l.width);
        }
      }
    }
  }

  /** Parsed lines end in no command but `.` or `,`. */
  lemma ParsedCommands(lines: seq<string>)
    ensures forall k :: 0 <= k < |lines| ==> Parsed(lines)[k].command in {"", ".", ","}
  {
  }

  /** From a cube with nine facelets of each colour, `compile` writes nothing
      but Brainfuck commands, and when it runs through, exactly the widths of
      its kept lines plus one command per `.N` / `,N` line. */
  lemma ProgramOutput(s: seq<int>, code: string)
    requires SolvedColours(s)
    ensures forall c :: c in Compiled(s, code).output ==> c in "+[>]<-.,"
    ensures Compiled(s, code).ok ==>
      Trimmed(Split(code, '\n')).Some? &&
      |Compiled(s, code).output| == Widths(Parsed(Trimmed(Split(code, '\n')).value))
  {
    match Trimmed(Split(code, '\n'))
    case None =>
    case Some(lines) =>
      ParsedCommands(lines);
      LinesOutput(s, Parsed(lines));
  }

  /** A program of nothing but newlines (the empty program included) throws
      in the trimming loop and leaves the cube alone. */
  lemma EmptyProgramThrows(s: seq<int>, code: string)
    requires |s| == 54
    requires forall k :: 0 <= k < |code| ==> code[k] == '\n'
    ensures Compiled(s, code) == Compilation(s, "", false)
  {
    SeparatorsOnly(code, '\n');
  }

  /** A string made only of separators splits into empty pieces. */
  lemma {:induction false} SeparatorsOnly(s: string, sep: char)
    requires forall k :: 0 <= k < |s| ==> s[k] == sep
    ensures forall k :: 0 <= k < |Split(s, sep)| ==> Split(s, sep)[k] == ""
    decreases |s|
  {
    if s != [] {
      SeparatorsOnly(s[1..], sep);
    }
  }

  /** A trailing newline changes nothing: the empty line it adds is trimmed. */
  lemma TrailingNewline(s: seq<int>, code: string)
    requires |s| == 54
    ensures Compiled(s, code + "\n") == Compiled(s, code)
  {
    SplitAppend(code, "", '\n');
    assert code + "\n" == code + ['\n'] + "";
    var lines := Split(code, '\n') + Split("", '\n');
    assert lines[..|lines| - 1] == Split(code, '\n');
  }

  // ---------------------------------------------------------------------
  // The compiler object

  /** `CSCompiler` (cubestate.js:3-39): one cube, created with the compiler and
      kept across every line and every call of `compile`. */
  class CSCompiler {
    const cube: Cube

    ghost predicate Valid()
      reads this, cube
    {
      cube.Valid()
    }

    /** `new CSCompiler()`: a fresh, solved cube (cubestate.js:3-5). */
    constructor ()
      ensures Valid() && fresh(cube)
      ensures cube.state == Solved()
    {
      cube := new Cube();
    }

    /** `compile(code)`: false where the source throws. The cube keeps the
        moves of this call for the next one. */
    method Compile(code: string) returns (ok: bool, codestack: string)
      requires Valid()
      modifies cube
      ensures Valid()
      ensures Compilation(cube.state, codestack, ok) == Compiled(old(cube.state), code)
    {
      codestack := "";
      var found, lines := TrimLines(Split(code, '\n'));
      if !found {
        return false, codestack;
      }
      ghost var parsed := Parsed(lines);
      var i := 0;
      while i < |lines|
        invariant 0 <= i <= |lines|
        invariant Valid()
        invariant LinesCompiled(old(cube.state), parsed[..i]) == Compilation(cube.state, codestack, true)
      {
        ParsedPush(lines, i);
        LinesPush(old(cube.state), parsed[..i], parsed[i]);
        var emitted;
        ok, emitted := CompileLine(lines[i]);
        if !ok {
          FailureStops(old(cube.state), parsed, i + 1);
          return;
        }
        codestack := codestack + emitted;
        i := i + 1;
      }
      assert parsed[..i] == parsed;
      ok := true;
    }

    /** One pass of the loop of cubestate.js:17-35: apply the line's moves to
        the cube and return what the line adds to `codestack`. */
    method CompileLine(text: string) returns (ok: bool, emitted: string)
      requires Valid()
      modifies cube
      ensures Valid()
      ensures Compilation(cube.state, emitted, ok) == LineCompiled(old(cube.state), ParseLine(text))
    {
      var line := Split(text, ' ');
      var moves := line;
      var last := line[|line| - 1];
      var out := |last| > 0 && last[0] == '.';
      var inp := |last| > 0 && last[0] == ',';
      if out || inp {
        moves := moves[..|moves| - 1];
      }
      var n: Width := if out || inp then SliceLength(last) else 9;
      var command := if out then "." else if inp then "," else "";
      ParseSteps(text, line, last, moves, n, command);
      ok := cube.Apply(Join(moves, ' '));
      if !ok {
        return ok, "";
      }
      emitted := Render(cube.state, n) + command;
    }
  }

  /** The loop of cubestate.js:12-14: drop empty lines off the end; `found` is
      false where the array runs empty and `code[-1].length` throws. */
  method TrimLines(code: seq<string>) returns (found: bool, lines: seq<string>)
    ensures found <==> Trimmed(code).Some?
    ensures found ==> lines == Trimmed(code).value
  {
    lines := code;
    while lines != [] && lines[|lines| - 1] == ""
      invariant Trimmed(lines) == Trimmed(code)
      decreases |lines|
    {
      lines := lines[..|lines| - 1];
    }
    found := lines != [];
  }
}
