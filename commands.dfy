/**
  One VM instruction as the command model sees it: a command type and up to
  two operands, built from a cleaned line by validating setters run in order.
*/
module Commands {
  import opened Wrappers
  import opened Text

  datatype CommandType =
    | Arithmetic | Push | Pop | Label | Goto | If | Function | Return | Call

  /** The name the source gives each command type ("C_PUSH", ...). */
  function TypeName(t: CommandType): string {
    match t
    case Arithmetic => "C_ARITHMETIC"
    case Push => "C_PUSH"
    case Pop => "C_POP"
    case Label => "C_LABEL"
    case Goto => "C_GOTO"
    case If => "C_IF"
    case Function => "C_FUNCTION"
    case Return => "C_RETURN"
    case Call => "C_CALL"
  }

  /** The command-type map: the type of each VM keyword, None for any other word. */
  function CommandTypeOf(word: string): Option<CommandType> {
    if word == "pop" then Some(Pop)
    else if word == "push" then Some(Push)
    else if word in ArithmeticWords then Some(Arithmetic)
    else if word == "label" then Some(Label)
    else if word == "goto" then Some(Goto)
    else if word == "if-goto" then Some(If)
    else if word == "function" then Some(Function)
    else if word == "return" then Some(Return)
    else if word == "call" then Some(Call)
    else None
  }

  const ArithmeticWords: set<string> := {"add", "sub", "neg", "eq", "gt", "lt", "and", "or", "not"}

  /** The keyword of a non-arithmetic command type (arithmetic words are their own keyword). */
  function Keyword(t: CommandType): string
    requires t != Arithmetic
  {
    match t
    case Push => "push"
    case Pop => "pop"
    case Label => "label"
    case Goto => "goto"
    case If => "if-goto"
    case Function => "function"
    case Return => "return"
    case Call => "call"
  }

  /** Command types that must not carry a first operand. */
  predicate InArg1Blacklist(t: CommandType) { t == Return }

  /** Command types that may carry a second operand. */
  predicate InArg2Whitelist(t: CommandType) { t == Push || t == Pop || t == Function || t == Call }

  datatype Command = Command(kind: CommandType, arg1: Option<string>, arg2: Option<nat>)

  datatype ParseError =
    | EmptyLine
    | UnknownCommand(word: string)
    | MissingArgument(line: string)
    | Arg1NotAllowed(kind: CommandType)
    | Arg2NotAllowed(kind: CommandType)
    | NotAnInteger(token: string)
    | NegativeIndex(value: int)
    | TooManyWords(line: string)

  // ------------------------------------------------------------- setters

  /** The command-type setter: the word must be a key of the command-type map. */
  function SetCommandType(word: string): (r: Result<CommandType, ParseError>)
    ensures r.Success? <==> CommandTypeOf(word).Some?
    ensures r.Success? ==> r.value == CommandTypeOf(word).value
  {
    match CommandTypeOf(word)
    case None => Failure(UnknownCommand(word))
    case Some(t) => Success(t)
  }

  predicate IsValidArg1Call(t: CommandType) { !InArg1Blacklist(t) }

  /**
    Looks the command TYPE up among the VM keywords, as the source does; since
    no type name is a keyword, the answer is always false.
  */
  predicate IsArithmeticCommand(t: CommandType) {
    CommandTypeOf(TypeName(t)) == Some(Arithmetic)
  }

  lemma IsArithmeticCommandNeverHolds(t: CommandType)
    ensures !IsArithmeticCommand(t)
  {
  }

  /** The first-operand setter. */
  function SetArg1(c: Command, s: string): (r: Result<Command, ParseError>)
    ensures r.Success? <==> c.kind != Return
    ensures r.Success? ==> r.value == c.(arg1 := Some(s))
  {
    if !IsValidArg1Call(c.kind) then Failure(Arg1NotAllowed(c.kind))
    else Success(c.(arg1 := Some(if IsArithmeticCommand(c.kind) then TypeName(c.kind) else s)))
  }

  /** The second-operand setter: a whitelisted type and a non-negative integer. */
  function SetArg2(c: Command, s: string): (r: Result<Command, ParseError>)
    ensures r.Success? <==> InArg2Whitelist(c.kind) && ParseInt(s).Some? && ParseInt(s).value >= 0
    ensures r.Success? ==> r.value == c.(arg2 := Some(ParseInt(s).value as nat))
  {
    if !InArg2Whitelist(c.kind) then Failure(Arg2NotAllowed(c.kind))
    else
      match ParseInt(s)
      case None => Failure(NotAnInteger(s))
      case Some(n) => if n < 0 then Failure(NegativeIndex(n)) else Success(c.(arg2 := Some(n)))
  }

  // ------------------------------------------------------------- getters

  /** The first-operand getter: refused for a return command. */
  function Arg1(c: Command): (r: Result<Option<string>, ParseError>)
    ensures r.Failure? <==> c.kind == Return
    ensures r.Success? ==> r.value == c.arg1
  {
    if !IsValidArg1Call(c.kind) then Failure(Arg1NotAllowed(c.kind)) else Success(c.arg1)
  }

  /** The second-operand getter: refused outside the whitelist. */
  function Arg2(c: Command): (r: Result<Option<nat>, ParseError>)
    ensures r.Failure? <==> !InArg2Whitelist(c.kind)
    ensures r.Success? ==> r.value == c.arg2
  {
    if !InArg2Whitelist(c.kind) then Failure(Arg2NotAllowed(c.kind)) else Success(c.arg2)
  }

  // ------------------------------------------------------------- parsing

  /** Builds a command from one cleaned line, running the checks in the source's order. */
  function Parse(line: string): Result<Command, ParseError> {
    var words := Split(line, ' ');
    if |words| == 0 then Failure(EmptyLine)
    else
      var kind :- SetCommandType(words[0]);
      var blank := Command(kind, None, None);
      if kind == Arithmetic then SetArg1(blank, words[0])
      else if kind == Return then Success(blank)
      else if |words| == 1 then Failure(MissingArgument(line))
      else
        var withArg1 :- SetArg1(blank, words[1]);
        if |words| == 2 then Success(withArg1)
        else
          var withArg2 :- SetArg2(withArg1, words[2]);
          if |words| > 3 then Failure(TooManyWords(line)) else Success(withArg2)
  }

  /** Which word lists describe a valid command, stated without the order of the checks. */
  predicate AcceptedWords(ws: seq<string>)
    requires |ws| >= 1
  {
    match CommandTypeOf(ws[0])
    case None => false
    case Some(k) =>
      || k == Arithmetic || k == Return || |ws| == 2
      || (|ws| == 3 && InArg2Whitelist(k) && ParseInt(ws[2]).Some? && ParseInt(ws[2]).value >= 0)
  }

  /** The command a valid word list denotes. */
  function Denoted(ws: seq<string>): Command
    requires |ws| >= 1 && AcceptedWords(ws)
  {
    var k := CommandTypeOf(ws[0]).value;
    if k == Arithmetic then Command(k, Some(ws[0]), None)
    else if k == Return then Command(k, None, None)
    else if |ws| == 2 then Command(k, Some(ws[1]), None)
    else Command(k, Some(ws[1]), Some(ParseInt(ws[2]).value as nat))
  }

  /** A line parses exactly when its words are accepted, and then to the command they denote. */
  lemma ParseCharacterised(line: string)
    ensures var ws := Split(line, ' ');
      && (Parse(line).Success? <==> AcceptedWords(ws))
      && (Parse(line).Success? ==> Parse(line).value == Denoted(ws))
  {
  }

  /** An unknown first word is reported as such, whatever follows. */
  lemma UnknownFirstWordFails(line: string)
    ensures var w := Split(line, ' ')[0];
      CommandTypeOf(w).None? <==> Parse(line) == Failure(UnknownCommand(w))
  {
  }

  /**
    The second operand is checked before the word count: "label a b c" is
    refused for its operand, and only a whitelisted command with a valid
    index is refused for having four or more words.
  */
  lemma ThirdWordCheckedBeforeWordCount(line: string)
    requires var ws := Split(line, ' ');
      |ws| > 3 && CommandTypeOf(ws[0]).Some?
      && CommandTypeOf(ws[0]).value != Arithmetic && CommandTypeOf(ws[0]).value != Return
    ensures var ws := Split(line, ' '); var k := CommandTypeOf(ws[0]).value;
      && (!InArg2Whitelist(k) ==> Parse(line) == Failure(Arg2NotAllowed(k)))
      && (InArg2Whitelist(k) && ParseInt(ws[2]).Some? && ParseInt(ws[2]).value >= 0
          ==> Parse(line) == Failure(TooManyWords(line)))
  {
  }

  // ----------------------------------------------------------- round trip

  /** The commands that parsing can produce. */
  predicate WellFormed(c: Command) {
    match c.kind
    case Arithmetic => c.arg1.Some? && c.arg1.value in ArithmeticWords && c.arg2.None?
    case Return => c.arg1.None? && c.arg2.None?
    case _ => c.arg1.Some? && ' ' !in c.arg1.value && (c.arg2.Some? ==> InArg2Whitelist(c.kind))
  }

  /** The words of a well-formed command as they would be written in a VM file. */
  function Words(c: Command): (ws: seq<string>)
    requires WellFormed(c)
    ensures |ws| >= 1
  {
    match c.kind
    case Arithmetic => [c.arg1.value]
    case Return => ["return"]
    case _ => [Keyword(c.kind), c.arg1.value] + (if c.arg2.Some? then [NatToString(c.arg2.value)] else [])
  }

  /** The VM line of a well-formed command. */
  function Format(c: Command): string
    requires WellFormed(c)
  {
    Join(Words(c), ' ')
  }

  /** Every successful parse yields a well-formed command. */
  lemma ParseIsWellFormed(line: string)
    requires Parse(line).Success?
    ensures WellFormed(Parse(line).value)
  {
    var ws := Split(line, ' ');
    assert ' ' !in ws[0];
    if |ws| > 1 { assert ' ' !in ws[1]; }
  }

  /** Keywords are not arithmetic words and map back to their own type. */
  lemma KeywordTypes(t: CommandType)
    requires t != Arithmetic
    ensures CommandTypeOf(Keyword(t)) == Some(t)
  {
  }

  /** The words of a well-formed command contain no space. */
  lemma WordsHaveNoSpace(c: Command)
    requires WellFormed(c)
    ensures forall i :: 0 <= i < |Words(c)| ==> ' ' !in Words(c)[i]
  {
    var ws := Words(c);
    if c.kind != Arithmetic && c.kind != Return && c.arg2.Some? {
      var d := NatToString(c.arg2.value);
      assert ws == [Keyword(c.kind), c.arg1.value, d];
      assert forall j :: 0 <= j < |d| ==> d[j] != ' ';
    }
  }

  /** The words of a well-formed command denote that command. */
  lemma WordsDenote(c: Command)
    requires WellFormed(c)
    ensures AcceptedWords(Words(c)) && Denoted(Words(c)) == c
  {
    if c.kind != Arithmetic && c.kind != Return {
      KeywordTypes(c.kind);
      if c.arg2.Some? {
        ParseIntOfNatToString(c.arg2.value);
      }
    }
  }

  /** Writing a well-formed command out and parsing the line gives the command back. */
  lemma ParseFormat(c: Command)
    requires WellFormed(c)
    ensures Parse(Format(c)) == Success(c)
  {
    WordsHaveNoSpace(c);
    SplitJoin(Words(c), ' ');
    WordsDenote(c);
    ParseCharacterised(Format(c));
  }
}
