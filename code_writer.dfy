/**
  The writer that turns VM commands into Hack assembly. It keeps the name of
  the file being translated (for static symbols), the function being
  translated (for scoped labels), two counters that make generated labels
  unique, and the lines written so far. The text written to the output file
  is modelled as the sequence of its lines.
*/
module CodeWriting {
  import opened Wrappers
  import opened Text
  import opened Listing
  import opened AsmCode

  // ------------------------------------------------------ issued labels

  /** A label read back as a generated one whose counter value was already handed out. */
  predicate Issued(l: Option<(LabelKind, nat)>, arithJumpCounter: nat, returnCounter: nat) {
    l.Some? && (if l.value.0 == ReturnKind then l.value.1 < returnCounter else l.value.1 < arithJumpCounter)
  }

  /** Generated labels, none repeated, each made from a counter value already handed out. */
  predicate LabelsIssued(labels: seq<string>, arithJumpCounter: nat, returnCounter: nat) {
    && (forall i, j :: 0 <= i < j < |labels| ==> labels[i] != labels[j])
    && (forall i :: 0 <= i < |labels| ==> Issued(ReadLabel(labels[i]), arithJumpCounter, returnCounter))
  }

  /** The labels the counters name next have not been issued yet. */
  lemma IssuedLabelsFresh(labels: seq<string>, arithJumpCounter: nat, returnCounter: nat)
    requires LabelsIssued(labels, arithJumpCounter, returnCounter)
    ensures GeneratedLabel(TrueKind, arithJumpCounter) !in labels
    ensures GeneratedLabel(EndKind, arithJumpCounter) !in labels
    ensures GeneratedLabel(ReturnKind, returnCounter) !in labels
  {
    ReadGeneratedLabel(TrueKind, arithJumpCounter);
    ReadGeneratedLabel(EndKind, arithJumpCounter);
    ReadGeneratedLabel(ReturnKind, returnCounter);
    forall i | 0 <= i < |labels|
      ensures labels[i] != GeneratedLabel(TrueKind, arithJumpCounter)
      ensures labels[i] != GeneratedLabel(EndKind, arithJumpCounter)
      ensures labels[i] != GeneratedLabel(ReturnKind, returnCounter)
    {
      assert Issued(ReadLabel(labels[i]), arithJumpCounter, returnCounter);
    }
  }

  /** Raising the counters keeps every issued label issued. */
  lemma LabelsIssuedGrow(labels: seq<string>, a: nat, r: nat, a': nat, r': nat)
    requires LabelsIssued(labels, a, r) && a <= a' && r <= r'
    ensures LabelsIssued(labels, a', r')
  {
    forall i | 0 <= i < |labels|
      ensures Issued(ReadLabel(labels[i]), a', r')
    {
      assert Issued(ReadLabel(labels[i]), a, r);
    }
  }

  /** A comparison issues `TRUE_k` and `END_k` and moves its counter past `k`. */
  lemma IssueComparisonLabels(labels: seq<string>, arithJumpCounter: nat, returnCounter: nat)
    requires LabelsIssued(labels, arithJumpCounter, returnCounter)
    ensures LabelsIssued(labels + [GeneratedLabel(TrueKind, arithJumpCounter), GeneratedLabel(EndKind, arithJumpCounter)],
                         arithJumpCounter + 1, returnCounter)
  {
    var t := GeneratedLabel(TrueKind, arithJumpCounter);
    var e := GeneratedLabel(EndKind, arithJumpCounter);
    IssuedLabelsFresh(labels, arithJumpCounter, returnCounter);
    LabelsIssuedGrow(labels, arithJumpCounter, returnCounter, arithJumpCounter + 1, returnCounter);
    GeneratedLabelInjective(TrueKind, arithJumpCounter, EndKind, arithJumpCounter);
    ReadGeneratedLabel(TrueKind, arithJumpCounter);
    ReadGeneratedLabel(EndKind, arithJumpCounter);
    var labels' := labels + [t, e];
    forall i, j | 0 <= i < j < |labels'| ensures labels'[i] != labels'[j] {
      if j == |labels| {
        assert labels'[j] == t;
      } else if j == |labels| + 1 {
        assert labels'[j] == e;
      }
    }
    assert forall i :: 0 <= i < |labels| ==> labels'[i] == labels[i];
  }

  /** A call issues `RETURN_k` and moves its counter past `k`. */
  lemma IssueReturnLabel(labels: seq<string>, arithJumpCounter: nat, returnCounter: nat)
    requires LabelsIssued(labels, arithJumpCounter, returnCounter)
    ensures LabelsIssued(labels + [GeneratedLabel(ReturnKind, returnCounter)], arithJumpCounter, returnCounter + 1)
  {
    var ret := GeneratedLabel(ReturnKind, returnCounter);
    IssuedLabelsFresh(labels, arithJumpCounter, returnCounter);
    LabelsIssuedGrow(labels, arithJumpCounter, returnCounter, arithJumpCounter, returnCounter + 1);
    ReadGeneratedLabel(ReturnKind, returnCounter);
    var labels' := labels + [ret];
    assert forall i :: 0 <= i < |labels| ==> labels'[i] == labels[i];
    assert labels'[|labels|] == ret;
  }

  // ------------------------------------------------------------- output

  /** `"\n".join(commands) + "\n"` as lines: an empty list still writes one empty line. */
  function Written(commands: seq<string>): (r: seq<string>)
    ensures |r| >= 1
  {
    if commands == [] then [""] else commands
  }

  /** The comment line that echoes a VM command, when logging is on. */
  function Logged(enabled: bool, text: string): seq<string> {
    if enabled then ["//  " + text] else []
  }

  /** The text an f-string gives an optional word. */
  function WordText(word: Option<string>): string {
    match word
    case None => "None"
    case Some(w) => w
  }

  /**
    What the writer emits on creation, with `k` the return counter: for a
    directory, SP = 256 and then a call of Sys.init; nothing for a file.
  */
  function InitCode(isDirectory: bool, logVmCommands: bool, k: nat): seq<string> {
    if !isDirectory then []
    else
      Logged(logVmCommands, "Boostrap code") + BootstrapCode
      + Logged(logVmCommands, CallLine("Sys.init", Some(0))) + CallCode("Sys.init", Some(0), k).value
  }

  /** The comment text that echoes a call. */
  function CallLine(functionName: string, numVars: Option<nat>): string {
    "call " + functionName + " " + IndexText(numVars)
  }

  /** The start-up code for a directory is the bootstrap followed by a call that always succeeds. */
  lemma InitCodeSplit(logVmCommands: bool, k: nat)
    ensures CallCode("Sys.init", Some(0), k).Success?
    ensures InitCode(true, logVmCommands, k)
      == (Logged(logVmCommands, "Boostrap code") + BootstrapCode)
         + Logged(logVmCommands, CallLine("Sys.init", Some(0))) + CallCode("Sys.init", Some(0), k).value
  {
  }

  lemma AppendFour<T>(s: seq<T>, a: seq<T>, b: seq<T>, c: seq<T>, d: seq<T>)
    ensures s + a + b + c + d == s + (a + b + c + d)
  {
  }

  /** A logged comment touches no register and declares nothing. */
  lemma LoggedEffects(enabled: bool, text: string)
    ensures Events(Logged(enabled, text)) == [] && OpenEnded(Logged(enabled, text))
    ensures Declared(Logged(enabled, text)) == []
  {
    if enabled {
      var line := "//  " + text;
      assert line[0] == '/';
      NotRegisterSymbol(line[1..], 0);
      assert "@" + line[1..] != line;
      DeclaredNone(line);
    }
  }

  /** The bootstrap block between two logged comments writes SP and nothing else. */
  lemma BootstrapBlockEffects(log: bool, before: string, after: string)
    ensures var head := Logged(log, before) + BootstrapCode + Logged(log, after);
      Events(head) == [Write(SP)] && OpenEnded(head) && Declared(head) == []
  {
    assert [] + [Write(SP)] + [] == [Write(SP)];
    var b := Logged(log, before);
    var a := Logged(log, after);
    LoggedEffects(log, before);
    LoggedEffects(log, after);
    BootstrapEffects();
    EventsOfBlocks3(b, BootstrapCode, a, [], [Write(SP)], [], [Write(SP)]);
    DeclaredAppend(b, BootstrapCode);
    DeclaredAppend(b + BootstrapCode, a);
  }

  /**
    For a directory, the writer starts by setting SP and then calls
    Sys.init like any other call: the first register event is the write of
    SP, followed by the events of the call.
  */
  lemma InitCodeEffects(logVmCommands: bool, k: nat)
    ensures Events(InitCode(true, logVmCommands, k)) == [Write(SP)] + CallEvents
  {
    var head := Logged(logVmCommands, "Boostrap code") + BootstrapCode
      + Logged(logVmCommands, CallLine("Sys.init", Some(0)));
    var call := CallCode("Sys.init", Some(0), k).value;
    BootstrapBlockEffects(logVmCommands, "Boostrap code", CallLine("Sys.init", Some(0)));
    CallCodeEvents("Sys.init", 0, k);
    EventsOfBlocks(head, call, [Write(SP)], CallEvents, [Write(SP)] + CallEvents);
  }

  /** The only label the start-up code declares is the return label of the Sys.init call. */
  lemma InitCodeDeclares(logVmCommands: bool, k: nat)
    ensures Declared(InitCode(true, logVmCommands, k)) == [GeneratedLabel(ReturnKind, k)]
  {
    var head := Logged(logVmCommands, "Boostrap code") + BootstrapCode
      + Logged(logVmCommands, CallLine("Sys.init", Some(0)));
    var call := CallCode("Sys.init", Some(0), k).value;
    BootstrapBlockEffects(logVmCommands, "Boostrap code", CallLine("Sys.init", Some(0)));
    CallCodeDeclares("Sys.init", 0, k);
    DeclaredAppend(head, call);
  }

  /**
    The lines `write_function` assembles: the entry label, then a loop that
    adds one zero-initialising block per local; a missing count raises
    before the loop runs.
  */
  method AssembleFunction(functionName: string, numLocalVars: Option<nat>) returns (r: Result<seq<string>, CodeError>)
    ensures r == FunctionCode(functionName, numLocalVars)
  {
    var asm := ["(" + functionName + ")"];
    var localReg := RamCode("local").value;
    if numLocalVars.None? {
      return Failure(NoneCount);
    }
    var n := numLocalVars.value;
    for i := 0 to n
      invariant asm == ["(" + functionName + ")"] + LocalInits(i)
    {
      var block := ["@" + localReg, "D=M", "@" + NatToString(i), "A=D+A", "M=0", "@SP", "M=M+1"];
      assert block == LocalInit(i);
      asm := asm + block;
    }
    r := Success(asm);
  }

  /**
    The lines `write_call` assembles for return label `RETURN_k`: the push
    of the return address, one push per saved register in a loop, the
    repositioning of ARG and LCL and the jump; a missing argument count
    raises once the frame pushes are built.
  */
  method AssembleCall(functionName: string, numVars: Option<nat>, k: nat) returns (r: Result<seq<string>, CodeError>)
    ensures r == CallCode(functionName, numVars, k)
  {
    var returnAddressLabel := GeneratedLabel(ReturnKind, k);
    var pushD := PushCode("skip", None, None).value;
    var asm := ["@" + returnAddressLabel, "D=A"] + pushD;
    for i := 0 to |FrameSegments|
      invariant asm == PushReturnAddress(k) + SaveRegisters(FrameSegments[..i])
    {
      var mem := FrameSegments[i];
      assert FrameSegments[..i + 1][..i] == FrameSegments[..i];
      asm := asm + ["@" + RamCode(mem).value, "D=M"] + pushD;
    }
    assert FrameSegments[..|FrameSegments|] == FrameSegments;
    if numVars.None? {
      return Failure(NoneCount);
    }
    var n := numVars.value;
    r := Success(asm + RepositionArg(n) + RepositionLcl() + TransferControl(functionName, returnAddressLabel));
  }

  class CodeWriter {
    const inFilepath: string
    /** Whether the input path names a directory, as the file system answered when the writer was created. */
    const isDirectory: bool
    const outFilename: string
    const logVmCommands: bool
    var currentFilename: Option<string>
    var currentFunction: Option<string>
    var arithJumpCounter: nat
    var returnCounter: nat
    /** The lines written to the output file so far. */
    var output: seq<string>
    /** The generated labels (`TRUE_k`, `END_k`, `RETURN_k`) declared in the output so far. */
    ghost var generated: seq<string>

    ghost predicate Valid()
      reads this
    {
      LabelsIssued(generated, arithJumpCounter, returnCounter)
    }

    /** Opens the output for a path whose output name has already been chosen, and writes the bootstrap. */
    constructor (filepath: string, isDirectory: bool, outFilename: string, logVmCommands: bool)
      ensures Valid()
      ensures this.inFilepath == filepath && this.isDirectory == isDirectory
      ensures this.outFilename == outFilename && this.logVmCommands == logVmCommands
      ensures currentFilename == None && currentFunction == None && arithJumpCounter == 0
      ensures output == InitCode(isDirectory, logVmCommands, 0)
      ensures returnCounter == if isDirectory then 1 else 0
    {
      this.inFilepath := filepath;
      this.isDirectory := isDirectory;
      this.outFilename := outFilename;
      this.logVmCommands := logVmCommands;
      currentFilename := None;
      currentFunction := None;
      arithJumpCounter := 0;
      returnCounter := 0;
      output := [];
      generated := [];
      new;
      WriteInit();
    }

    /** Chooses the output file for a path and creates the writer, or reports why the path is refused. */
    static method Create(filepath: string, isDirectory: bool, logVmCommands: bool)
      returns (r: Result<CodeWriter, CodeError>)
      ensures r.Failure? <==> OutputFilename(filepath, isDirectory).Failure?
      ensures r.Failure? ==> r.error == OutputFilename(filepath, isDirectory).error
      ensures r.Success? ==>
        && fresh(r.value) && r.value.Valid()
        && r.value.outFilename == OutputFilename(filepath, isDirectory).value
        && r.value.inFilepath == filepath && r.value.isDirectory == isDirectory
        && r.value.logVmCommands == logVmCommands
        && r.value.output == InitCode(isDirectory, logVmCommands, 0)
        && r.value.currentFilename == None && r.value.currentFunction == None
        && r.value.arithJumpCounter == 0
        && r.value.returnCounter == (if isDirectory then 1 else 0)
    {
      match OutputFilename(filepath, isDirectory) {
        case Failure(e) =>
          r := Failure(e);
        case Success(out) =>
          var w := new CodeWriter(filepath, isDirectory, out, logVmCommands);
          r := Success(w);
      }
    }

    /** A new file: static symbols are now qualified by its stem, and no function is current. */
    method SetFilename(filepath: string)
      modifies this
      ensures currentFilename == Some(FileStem(filepath)) && currentFunction == None
      ensures output == old(output) && generated == old(generated)
      ensures arithJumpCounter == old(arithJumpCounter) && returnCounter == old(returnCounter)
    {
      currentFilename := Some(FileStem(filepath));
      currentFunction := None;
    }

    /** Appends lines to the output file. */
    method Write(commands: seq<string>)
      modifies this
      ensures output == old(output) + Written(commands)
      ensures currentFilename == old(currentFilename) && currentFunction == old(currentFunction)
      ensures arithJumpCounter == old(arithJumpCounter) && returnCounter == old(returnCounter)
      ensures generated == old(generated)
    {
      output := output + Written(commands);
    }

    /** Echoes a VM command as a comment, when logging is on. */
    method Log(text: string)
      modifies this
      ensures output == old(output) + Logged(logVmCommands, text)
      ensures currentFilename == old(currentFilename) && currentFunction == old(currentFunction)
      ensures arithJumpCounter == old(arithJumpCounter) && returnCounter == old(returnCounter)
      ensures generated == old(generated)
    {
      if logVmCommands {
        Write(["//  " + text]);
      }
    }

    /** For a directory, SP = 256 and then a call of Sys.init; nothing for a single file. */
    method WriteInit()
      requires Valid()
      modifies this
      ensures Valid()
      ensures output == old(output) + InitCode(isDirectory, logVmCommands, old(returnCounter))
      ensures currentFilename == old(currentFilename) && currentFunction == old(currentFunction)
      ensures arithJumpCounter == old(arithJumpCounter)
      ensures returnCounter == old(returnCounter) + (if isDirectory then 1 else 0)
      ensures generated == old(generated) + (if isDirectory then [GeneratedLabel(ReturnKind, old(returnCounter))] else [])
    {
      if !isDirectory {
        return;
      }
      ghost var start := output;
      Log("Boostrap code");
      assert Written(BootstrapCode) == BootstrapCode;
      Write(BootstrapCode);
      ghost var head := output;
      var r := WriteCall("Sys.init", Some(0));
      InitCodeSplit(logVmCommands, old(returnCounter));
      ghost var call := CallCode("Sys.init", Some(0), old(returnCounter)).value;
      assert output == head + Logged(logVmCommands, CallLine("Sys.init", Some(0))) + call;
      AppendFour(start, Logged(logVmCommands, "Boostrap code"), BootstrapCode,
                 Logged(logVmCommands, CallLine("Sys.init", Some(0))), call);
    }

    /**
      `translate_arithmetic_vm_code_to_assembly`: pops the operands, applies
      the operator in place and moves SP past the result; a comparison uses
      the labels of the current counter value and then advances the counter.
    */
    method TranslateArithmetic(command: Option<string>) returns (r: Result<seq<string>, CodeError>)
      modifies this
      ensures r == ArithmeticCode(command, old(arithJumpCounter))
      ensures arithJumpCounter == old(arithJumpCounter) + (if r.Success? && IsComparison(command.value) then 1 else 0)
      ensures output == old(output) && generated == old(generated) && returnCounter == old(returnCounter)
      ensures currentFilename == old(currentFilename) && currentFunction == old(currentFunction)
    {
      if command.None? {
        return Failure(NoneCommand);
      }
      var c := command.value;
      var asm := ["@SP", "AM=M-1"];
      if !(c == "neg" || c == "not") {
        asm := asm + ["D=M", "@SP", "AM=M-1"];
      }
      var op: seq<string>;
      if c == "add" {
        op := ["M=M+D"];
      } else if c == "sub" {
        op := ["M=M-D"];
      } else if c == "neg" {
        op := ["M=-M"];
      } else if c in ["eq", "gt", "lt"] {
        var t := GeneratedLabel(TrueKind, arithJumpCounter);
        var e := GeneratedLabel(EndKind, arithJumpCounter);
        op := ["D=M-D", "@" + t];
        if c == "eq" {
          op := op + ["D;JEQ"];
        } else if c == "gt" {
          op := op + ["D;JGT"];
        } else {
          op := op + ["D;JLT"];
        }
        op := op + SettleComparison(t, e);
        arithJumpCounter := arithJumpCounter + 1;
      } else if c == "and" {
        op := ["M=D&M"];
      } else if c == "or" {
        op := ["M=D|M"];
      } else if c == "not" {
        op := ["M=!M"];
      } else {
        return Failure(UnknownArithmetic(c));
      }
      assert asm == PopOperands(c);
      assert op == OperatorCode(c, old(arithJumpCounter)).value;
      asm := asm + op;
      asm := asm + ["@SP", "M=M+1"];
      return Success(asm);
    }

    method WriteArithmetic(vmCommand: Option<string>) returns (r: Outcome<CodeError>)
      requires Valid()
      modifies this
      ensures Valid()
      ensures var logged := old(output) + Logged(logVmCommands, WordText(vmCommand));
        match ArithmeticCode(vmCommand, old(arithJumpCounter))
        case Success(code) =>
          && r == Pass && output == logged + code
          && generated == old(generated) + Declared(code)
          && arithJumpCounter == old(arithJumpCounter) + (if IsComparison(vmCommand.value) then 1 else 0)
        case Failure(e) =>
          r == Fail(e) && output == logged && generated == old(generated) && arithJumpCounter == old(arithJumpCounter)
      ensures returnCounter == old(returnCounter)
      ensures currentFilename == old(currentFilename) && currentFunction == old(currentFunction)
    {
      Log(WordText(vmCommand));
      var k := arithJumpCounter;
      var asm := TranslateArithmetic(vmCommand);
      if asm.Failure? {
        return Fail(asm.error);
      }
      Write(asm.value);
      ArithmeticCodeOutcome(vmCommand, k);
      ArithmeticCodeDeclares(vmCommand.value, k);
      if IsComparison(vmCommand.value) {
        IssueComparisonLabels(generated, k, returnCounter);
      }
      generated := generated + Declared(asm.value);
      r := Pass;
    }

    method WritePushPop(commandType: string, segment: string, index: Option<nat>) returns (r: Outcome<CodeError>)
      requires Valid()
      modifies this
      ensures Valid()
      ensures var logged := old(output) + Logged(logVmCommands,
          (if commandType == "C_PUSH" then "push" else "pop") + " " + segment + " " + IndexText(index));
        var code := if commandType == "C_PUSH" then PushCode(segment, index, currentFilename)
                    else if commandType == "C_POP" then PopCode(segment, index, currentFilename)
                    else Failure(NotPushOrPop(commandType));
        match code
        case Success(asm) => r == Pass && output == logged + asm
        case Failure(e) => r == Fail(e) && output == logged
      ensures generated == old(generated) && currentFilename == old(currentFilename)
      ensures currentFunction == old(currentFunction)
      ensures arithJumpCounter == old(arithJumpCounter) && returnCounter == old(returnCounter)
    {
      var command := if commandType == "C_PUSH" then "push" else "pop";
      Log(command + " " + segment + " " + IndexText(index));
      var asm: Result<seq<string>, CodeError>;
      if commandType == "C_PUSH" {
        asm := PushCode(segment, index, currentFilename);
      } else if commandType == "C_POP" {
        asm := PopCode(segment, index, currentFilename);
      } else {
        return Fail(NotPushOrPop(commandType));
      }
      if asm.Failure? {
        return Fail(asm.error);
      }
      Write(asm.value);
      r := Pass;
    }

    method WriteLabel(name: string)
      requires Valid()
      modifies this
      ensures Valid()
      ensures output == old(output) + Logged(logVmCommands, "label " + name) + LabelCode(currentFunction, name)
      ensures generated == old(generated) && currentFilename == old(currentFilename)
      ensures currentFunction == old(currentFunction)
      ensures arithJumpCounter == old(arithJumpCounter) && returnCounter == old(returnCounter)
    {
      Log("label " + name);
      var scoped := ScopedLabel(currentFunction, name);
      Write(["(" + scoped + ")"]);
    }

    method WriteGoto(name: string)
      requires Valid()
      modifies this
      ensures Valid()
      ensures output == old(output) + Logged(logVmCommands, "goto " + name) + GotoCode(currentFunction, name)
      ensures generated == old(generated) && currentFilename == old(currentFilename)
      ensures currentFunction == old(currentFunction)
      ensures arithJumpCounter == old(arithJumpCounter) && returnCounter == old(returnCounter)
    {
      Log("goto " + name);
      var scoped := ScopedLabel(currentFunction, name);
      Write(["@" + scoped, "0;JMP"]);
    }

    method WriteIf(name: string)
      requires Valid()
      modifies this
      ensures Valid()
      ensures output == old(output) + Logged(logVmCommands, "if-goto " + name) + IfCode(currentFunction, name)
      ensures generated == old(generated) && currentFilename == old(currentFilename)
      ensures currentFunction == old(currentFunction)
      ensures arithJumpCounter == old(arithJumpCounter) && returnCounter == old(returnCounter)
    {
      Log("if-goto " + name);
      var scoped := ScopedLabel(currentFunction, name);
      Write(["@SP", "AM=M-1", "D=M", "@" + scoped, "D;JNE"]);
    }

    /**
      Makes the function current (even when the local count is missing, which
      then raises after the log line), declares its entry label and
      zero-initialises its locals one at a time.
    */
    method WriteFunction(functionName: string, numLocalVars: Option<nat>) returns (r: Outcome<CodeError>)
      requires Valid()
      modifies this
      ensures Valid()
      ensures currentFunction == Some(functionName)
      ensures var logged := old(output) + Logged(logVmCommands, "function " + functionName + " " + IndexText(numLocalVars));
        match FunctionCode(functionName, numLocalVars)
        case Success(code) => r == Pass && output == logged + code
        case Failure(e) => r == Fail(e) && output == logged
      ensures generated == old(generated) && currentFilename == old(currentFilename)
      ensures arithJumpCounter == old(arithJumpCounter) && returnCounter == old(returnCounter)
    {
      currentFunction := Some(functionName);
      Log("function " + functionName + " " + IndexText(numLocalVars));
      var asm := AssembleFunction(functionName, numLocalVars);
      if asm.Failure? {
        return Fail(asm.error);
      }
      Write(asm.value);
      r := Pass;
    }

    /**
      Issues the next return label (the counter advances even when the
      argument count is missing, which then raises), pushes the return
      address and the caller's LCL, ARG, THIS and THAT, repositions ARG and
      LCL, and jumps to the callee.
    */
    method WriteCall(functionName: string, numVars: Option<nat>) returns (r: Outcome<CodeError>)
      requires Valid()
      modifies this
      ensures Valid()
      ensures returnCounter == old(returnCounter) + 1
      ensures var logged := old(output) + Logged(logVmCommands, CallLine(functionName, numVars));
        match CallCode(functionName, numVars, old(returnCounter))
        case Success(code) =>
          && r == Pass && output == logged + code
          && generated == old(generated) + [GeneratedLabel(ReturnKind, old(returnCounter))]
        case Failure(e) => r == Fail(e) && output == logged && generated == old(generated)
      ensures currentFilename == old(currentFilename) && currentFunction == old(currentFunction)
      ensures arithJumpCounter == old(arithJumpCounter)
    {
      Log(CallLine(functionName, numVars));
      var k := returnCounter;
      returnCounter := returnCounter + 1;
      LabelsIssuedGrow(generated, arithJumpCounter, k, arithJumpCounter, returnCounter);
      var asm := AssembleCall(functionName, numVars, k);
      if asm.Failure? {
        return Fail(asm.error);
      }
      Write(asm.value);
      IssueReturnLabel(generated, arithJumpCounter, k);
      generated := generated + [GeneratedLabel(ReturnKind, k)];
      r := Pass;
    }

    /** Restores the caller's frame from the callee's and jumps back to the return address. */
    method WriteReturn()
      requires Valid()
      modifies this
      ensures Valid()
      ensures output == old(output) + Logged(logVmCommands, "return") + ReturnCode()
      ensures generated == old(generated) && currentFilename == old(currentFilename)
      ensures currentFunction == old(currentFunction)
      ensures arithJumpCounter == old(arithJumpCounter) && returnCounter == old(returnCounter)
    {
      Log("return");
      Write(ReturnCode());
    }
  }
}
