/**
  The line cleaner and the line cursor over one VM file: comments and
  surrounding whitespace are removed, blank lines are dropped in place, and a
  cursor hands out one parsed command per remaining line.
*/
module Parsing {
  import opened Wrappers
  import opened Text
  import opened Commands

  // ---------------------------------------------------------- clean_line

  /** A comment marker `//` starts at position `i` of `s`. */
  predicate MarkerAt(s: string, i: int) {
    0 <= i && i + 1 < |s| && s[i] == '/' && s[i + 1] == '/'
  }

  predicate NoMarker(s: string) {
    forall i :: 0 <= i < |s| ==> !MarkerAt(s, i)
  }

  /** What the regular expression `.*` leaves behind: the text from the next newline on. */
  function FromNewline(s: string): (r: string)
    ensures |r| <= |s| && r == s[|s| - |r|..]
    ensures r == [] || r[0] == '\n'
    ensures '\n' !in s[..|s| - |r|]
    ensures '\n' !in s ==> r == []
  {
    if s == [] || s[0] == '\n' then s else FromNewline(s[1..])
  }

  /**
    `re.sub('//.*', "", s)`: scanning left to right, each `//` and the rest of
    its line (up to, not including, a newline) is removed.
  */
  function DropComments(s: string): string
    decreases |s|
  {
    if |s| < 2 then s
    else if s[0] == '/' && s[1] == '/' then DropComments(FromNewline(s[2..]))
    else [s[0]] + DropComments(s[1..])
  }

  /** `clean_line`: comments removed, then leading and trailing whitespace stripped. */
  function CleanLine(line: string): string {
    Strip(DropComments(line))
  }

  /** `is_blank`: empty, or whitespace only. */
  predicate IsBlank(line: string) {
    |line| == 0 || AllSpace(line)
  }

  lemma DropCommentsKeepsFirst(t: string)
    requires |t| >= 1 && t[0] != '/'
    ensures DropComments(t) != [] && DropComments(t)[0] == t[0]
  {
  }

  /** No comment marker survives. */
  lemma {:induction false} DropCommentsLeavesNoMarker(s: string)
    ensures NoMarker(DropComments(s))
    decreases |s|
  {
    if |s| >= 2 {
      if s[0] == '/' && s[1] == '/' {
        DropCommentsLeavesNoMarker(FromNewline(s[2..]));
      } else {
        var rest := DropComments(s[1..]);
        DropCommentsLeavesNoMarker(s[1..]);
        if s[0] == '/' {
          DropCommentsKeepsFirst(s[1..]);
        }
        var r := [s[0]] + rest;
        forall i | 0 <= i < |r| ensures !MarkerAt(r, i) {
          if i > 0 { assert MarkerAt(r, i) == MarkerAt(rest, i - 1); }
        }
      }
    }
  }

  /** A line without a marker is left alone. */
  lemma {:induction false} DropCommentsWithoutMarker(s: string)
    requires NoMarker(s)
    ensures DropComments(s) == s
    decreases |s|
  {
    if |s| >= 2 {
      assert !MarkerAt(s, 0);
      forall i | 0 <= i < |s[1..]| ensures !MarkerAt(s[1..], i) {
        assert MarkerAt(s[1..], i) == MarkerAt(s, i + 1);
      }
      DropCommentsWithoutMarker(s[1..]);
      assert [s[0]] + s[1..] == s;
    }
  }

  /**
    On a line without a newline, removing comments cuts the line just before
    its first `//`, or keeps it whole when there is none.
  */
  lemma {:induction false} DropCommentsCutsAtFirstMarker(s: string)
    requires '\n' !in s
    ensures var r := DropComments(s);
      && |r| <= |s| && r == s[..|r|]
      && (forall i :: 0 <= i < |r| ==> !MarkerAt(s, i))
      && (|r| < |s| ==> MarkerAt(s, |r|))
    decreases |s|
  {
    if |s| >= 2 {
      if s[0] == '/' && s[1] == '/' {
        assert FromNewline(s[2..]) == [] by { assert '\n' !in s[2..]; }
      } else {
        assert '\n' !in s[1..];
        DropCommentsCutsAtFirstMarker(s[1..]);
        var rest := DropComments(s[1..]);
        var r := [s[0]] + rest;
        forall i | 0 <= i < |r| ensures !MarkerAt(s, i) {
          if i > 0 { assert MarkerAt(s, i) == MarkerAt(s[1..], i - 1); }
        }
        if |r| < |s| { assert MarkerAt(s, |r|) == MarkerAt(s[1..], |rest|); }
      }
    }
  }

  lemma {:induction false} NoMarkerInSlice(s: string, i: int, j: int)
    requires 0 <= i <= j <= |s| && NoMarker(s)
    ensures NoMarker(s[i..j])
  {
    forall k | 0 <= k < j - i ensures !MarkerAt(s[i..j], k) {
      if MarkerAt(s[i..j], k) { assert MarkerAt(s, i + k); }
    }
  }

  /** Cleaning an already-cleaned line changes nothing. */
  lemma CleanLineIdempotent(line: string)
    ensures CleanLine(CleanLine(line)) == CleanLine(line)
  {
    var x := DropComments(line);
    DropCommentsLeavesNoMarker(line);
    StripIsSlice(x);
    var i, j :| 0 <= i <= j <= |x| && Strip(x) == x[i..j];
    NoMarkerInSlice(x, i, j);
    DropCommentsWithoutMarker(Strip(x));
    StripIdempotent(x);
  }

  /** A cleaned line is blank exactly when it is empty. */
  lemma CleanLineBlankIffEmpty(line: string)
    ensures IsBlank(CleanLine(line)) <==> CleanLine(line) == []
  {
    StripEnds(DropComments(line));
  }

  // ---------------------------------------------------------- clean_file

  /** A line as the cleaner leaves it: not blank, and unchanged by cleaning. */
  predicate IsCleanLine(line: string) {
    !IsBlank(line) && CleanLine(line) == line
  }

  /** What one input line contributes to the cleaned file. */
  function Kept(line: string): (r: seq<string>)
    ensures |r| <= 1
  {
    var c := CleanLine(line);
    if IsBlank(c) then [] else [c]
  }

  /** The lines `keep` makes of each input line, concatenated in input order. */
  function Concat<T>(keep: T -> seq<T>, lines: seq<T>): seq<T> {
    if lines == [] then [] else Concat(keep, lines[..|lines| - 1]) + keep(lines[|lines| - 1])
  }

  /** `[clean_line(l) for l in lines if not is_blank(clean_line(l))]`. */
  function Cleaned(lines: seq<string>): seq<string> {
    Concat(Kept, lines)
  }

  lemma ConcatSnoc<T>(keep: T -> seq<T>, lines: seq<T>, line: T)
    ensures Concat(keep, lines + [line]) == Concat(keep, lines) + keep(line)
  {
    assert (lines + [line])[..|lines|] == lines;
  }

  /** Concatenation works line by line, keeping the order of the lines. */
  lemma {:induction false} ConcatAppend<T>(keep: T -> seq<T>, a: seq<T>, b: seq<T>)
    ensures Concat(keep, a + b) == Concat(keep, a) + Concat(keep, b)
    decreases |b|
  {
    if b == [] {
      assert a + b == a;
    } else {
      var b' := b[..|b| - 1];
      var last := b[|b| - 1];
      assert b == b' + [last];
      assert a + b == (a + b') + [last];
      ConcatSnoc(keep, a + b', last);
      ConcatSnoc(keep, b', last);
      ConcatAppend(keep, a, b');
    }
  }

  /** Every line contributes at most one line, so the result is no longer than the input. */
  lemma {:induction false} CleanedLength(lines: seq<string>)
    ensures |Cleaned(lines)| <= |lines|
    decreases |lines|
  {
    if lines != [] {
      var init := lines[..|lines| - 1];
      CleanedLength(init);
      assert Cleaned(lines) == Cleaned(init) + Kept(lines[|lines| - 1]);
    }
  }

  /** Every line the cleaner keeps is non-blank and already clean. */
  lemma {:induction false} CleanedLinesAreClean(lines: seq<string>)
    ensures forall i :: 0 <= i < |Cleaned(lines)| ==> IsCleanLine(Cleaned(lines)[i])
    decreases |lines|
  {
    if lines != [] {
      var init := lines[..|lines| - 1];
      var last := lines[|lines| - 1];
      CleanedLinesAreClean(init);
      CleanLineIdempotent(last);
      var before, k := Cleaned(init), Kept(last);
      assert Cleaned(lines) == before + k;
      forall i | 0 <= i < |before + k| ensures IsCleanLine((before + k)[i]) {
        if i < |before| {
          assert (before + k)[i] == before[i];
        } else {
          assert (before + k)[i] == k[0] == CleanLine(last);
        }
      }
    }
  }

  /** Cleaning works line by line, keeping the order of the lines. */
  lemma CleanedAppend(a: seq<string>, b: seq<string>)
    ensures Cleaned(a + b) == Cleaned(a) + Cleaned(b)
  {
    ConcatAppend(Kept, a, b);
  }

  /** What a line keeps is kept unchanged by a second cleaning. */
  lemma KeptIsClean(line: string)
    ensures Cleaned(Kept(line)) == Kept(line)
  {
    var c := CleanLine(line);
    if !IsBlank(c) {
      CleanLineIdempotent(line);
      ConcatSnoc(Kept, [], c);
      assert [] + [c] == [c];
    }
  }

  /** Cleaning a cleaned file changes nothing. */
  lemma {:induction false} CleanedIdempotent(lines: seq<string>)
    ensures Cleaned(Cleaned(lines)) == Cleaned(lines)
    decreases |lines|
  {
    if lines != [] {
      var init := lines[..|lines| - 1];
      var last := lines[|lines| - 1];
      assert lines == init + [last];
      ConcatSnoc(Kept, init, last);
      CleanedIdempotent(init);
      CleanedAppend(Cleaned(init), Kept(last));
      KeptIsClean(last);
    }
  }

  /** Overwriting the element after `prefix`, then possibly deleting it. */
  lemma UpdateOrDrop<T>(prefix: seq<T>, x: T, rest: seq<T>, c: T)
    ensures var s := (prefix + [x] + rest)[|prefix| := c];
      s == prefix + [c] + rest && s[..|prefix|] + s[|prefix| + 1..] == prefix + rest
  {
    var s := (prefix + [x] + rest)[|prefix| := c];
    assert s == prefix + [c] + rest;
    assert s[..|prefix|] == prefix;
    assert s[|prefix| + 1..] == rest;
  }

  /**
    One step of an in-place rewrite: with the first `done` lines already
    rewritten, overwriting the next line by `c` and dropping it when `keep`
    drops it leaves the first `done + 1` lines rewritten.
  */
  lemma ConcatStep<T>(keep: T -> seq<T>, items: seq<T>, original: seq<T>, done: nat, c: T, drop: bool)
    requires done < |original|
    requires items == Concat(keep, original[..done]) + original[done..]
    requires keep(original[done]) == if drop then [] else [c]
    ensures var line := |Concat(keep, original[..done])|;
      var updated := items[line := c];
      && line < |items| && items[line] == original[done]
      && (drop ==> updated[..line] + updated[line + 1..] == Concat(keep, original[..done + 1]) + original[done + 1..])
      && (!drop ==> line + 1 == |Concat(keep, original[..done + 1])|
                    && updated == Concat(keep, original[..done + 1]) + original[done + 1..])
  {
    var prefix := Concat(keep, original[..done]);
    var x := original[done];
    var rest := original[done + 1..];
    assert original[done..] == [x] + rest;
    assert items == prefix + [x] + rest;
    assert original[..done + 1] == original[..done] + [x];
    ConcatSnoc(keep, original[..done], x);
    UpdateOrDrop(prefix, x, rest, c);
  }

  /** One step of `clean_file`: `ConcatStep` for the cleaner's own line function. */
  lemma CleanStep(items: seq<string>, original: seq<string>, done: nat)
    requires done < |original|
    requires items == Cleaned(original[..done]) + original[done..]
    ensures var line := |Cleaned(original[..done])|;
      var updated := items[line := CleanLine(items[line])];
      && line < |items| && items[line] == original[done]
      && (IsBlank(updated[line]) ==>
            updated[..line] + updated[line + 1..] == Cleaned(original[..done + 1]) + original[done + 1..])
      && (!IsBlank(updated[line]) ==>
            line + 1 == |Cleaned(original[..done + 1])|
            && updated == Cleaned(original[..done + 1]) + original[done + 1..])
  {
    var c := CleanLine(original[done]);
    var line := |Cleaned(original[..done])|;
    assert Kept(original[done]) == if IsBlank(c) then [] else [c];
    ConcatStep(Kept, items, original, done, c, IsBlank(c));
    assert items[line := CleanLine(items[line])] == items[line := c];
  }

  /** A list the source mutates in place (the lines of one file). */
  class LineList {
    var items: seq<string>

    constructor (lines: seq<string>)
      ensures items == lines
    {
      items := lines;
    }
  }

  /** `clean_file`: cleans every line in place, removing blank ones, and returns the same list. */
  method CleanFile(file: LineList) returns (r: LineList)
    modifies file
    ensures r == file
    ensures file.items == Cleaned(old(file.items))
  {
    ghost var original := file.items;
    ghost var done := 0;
    var line := 0;
    while line < |file.items|
      invariant 0 <= done <= |original|
      invariant line == |Cleaned(original[..done])|
      invariant file.items == Cleaned(original[..done]) + original[done..]
      decreases |file.items| - line
    {
      CleanStep(file.items, original, done);
      file.items := file.items[line := CleanLine(file.items[line])];
      if IsBlank(file.items[line]) {
        file.items := file.items[..line] + file.items[line + 1..];
        done := done + 1;
        continue;
      }
      line := line + 1;
      done := done + 1;
    }
    assert original[..done] == original;
    r := file;
  }

  // -------------------------------------------------------------- cursor

  datatype ParserError =
    | NoCurrentCommand
    | LineOutOfRange(line: int)
    | BadCommand(error: ParseError)

  /** The cursor over a cleaned file. */
  class Parser {
    const file: LineList
    var currentCommand: Option<Command>
    var line: int

    /** Cleans the given list in place and keeps it as the file to walk. */
    constructor (lines: LineList)
      modifies lines
      ensures file == lines && lines.items == Cleaned(old(lines.items))
      ensures currentCommand == None && line == -1
    {
      var cleaned := CleanFile(lines);
      file := cleaned;
      currentCommand := None;
      line := -1;
    }

    predicate HasMoreCommands()
      reads this, file
    {
      line + 1 < |file.items|
    }

    /**
      Moves to the next line and parses it. The line number moves even when
      the line is missing or does not parse; the current command changes only
      on success.
    */
    method Advance() returns (r: Outcome<ParserError>)
      requires line >= -1
      modifies this
      ensures line == old(line) + 1
      ensures line < |file.items| ==> match Parse(file.items[line])
        case Success(c) => r == Pass && currentCommand == Some(c)
        case Failure(e) => r == Fail(BadCommand(e)) && currentCommand == old(currentCommand)
      ensures line >= |file.items| ==> r == Fail(LineOutOfRange(line)) && currentCommand == old(currentCommand)
    {
      line := line + 1;
      if line >= |file.items| {
        return Fail(LineOutOfRange(line));
      }
      match Parse(file.items[line]) {
        case Success(c) =>
          currentCommand := Some(c);
          r := Pass;
        case Failure(e) =>
          r := Fail(BadCommand(e));
      }
    }

    /** The type of the current command. */
    function CommandType(): (r: Result<CommandType, ParserError>)
      reads this
      ensures r.Success? <==> currentCommand.Some?
      ensures r.Success? ==> r.value == currentCommand.value.kind
    {
      match currentCommand
      case None => Failure(NoCurrentCommand)
      case Some(c) => Success(c.kind)
    }

    /** The first operand of the current command, refused for a return command. */
    function Arg1(): (r: Result<Option<string>, ParserError>)
      reads this
      ensures r.Success? <==> currentCommand.Some? && currentCommand.value.kind != Return
      ensures r.Success? ==> r.value == currentCommand.value.arg1
    {
      match currentCommand
      case None => Failure(NoCurrentCommand)
      case Some(c) =>
        match Commands.Arg1(c)
        case Failure(e) => Failure(BadCommand(e))
        case Success(a) => Success(a)
    }

    /** The second operand of the current command, refused outside the whitelist. */
    function Arg2(): (r: Result<Option<nat>, ParserError>)
      reads this
      ensures r.Success? <==> currentCommand.Some? && InArg2Whitelist(currentCommand.value.kind)
      ensures r.Success? ==> r.value == currentCommand.value.arg2
    {
      match currentCommand
      case None => Failure(NoCurrentCommand)
      case Some(c) =>
        match Commands.Arg2(c)
        case Failure(e) => Failure(BadCommand(e))
        case Success(a) => Success(a)
    }

    /**
      The driver's walk over a file: advance while more commands remain,
      stopping at the first line that does not parse. When every remaining
      line parses, exactly one advance happens per remaining line.
    */
    method AdvanceAll() returns (steps: nat, r: Outcome<ParserError>)
      requires line >= -1
      modifies this
      ensures line == old(line) + steps
      ensures r == Pass ==> !HasMoreCommands()
      ensures r == Pass && old(line) + 1 <= |file.items| ==> steps == |file.items| - 1 - old(line)
      ensures (forall j :: old(line) < j < |file.items| ==> Parse(file.items[j]).Success?) ==> r == Pass
      ensures r != Pass ==> 0 <= line < |file.items| && Parse(file.items[line]).Failure?
      ensures forall j :: old(line) < j < line ==> 0 <= j < |file.items| && Parse(file.items[j]).Success?
    {
      steps := 0;
      r := Pass;
      while HasMoreCommands()
        invariant line == old(line) + steps
        invariant line >= -1 && r == Pass
        invariant line + 1 <= |file.items| || steps == 0
        invariant forall j :: old(line) < j <= line ==> 0 <= j < |file.items| && Parse(file.items[j]).Success?
        decreases |file.items| - line
      {
        r := Advance();
        steps := steps + 1;
        if r != Pass {
          return;
        }
      }
    }
  }
}
