/**
  The assembly each VM command translates to, as pure functions of the
  command and of the writer state they read (the current file name, the
  current function, the label counters), with what each sequence does to the
  pointer registers and which labels it declares.
*/
module AsmCode {
  import opened Wrappers
  import opened Text
  import opened Listing

  /** Why a translation raises instead of producing code. */
  datatype CodeError =
    | NoneCommand
    | UnknownArithmetic(command: string)
    | UnknownSegment(segment: string)
    | UnknownRamSegment(segment: string)
    | NoCurrentFile
    | BadPointerIndex(index: Option<nat>)
    | PopConstant
    | NotPushOrPop(commandType: string)
    | NoneCount
    | EmptyBaseName
    | NotAsmOutput(filepath: string)

  // ------------------------------------------------------------ segments

  /** The segments whose base address lives in a pointer register, and that register's symbol. */
  const SegmentsMapper: map<string, string> :=
    map["argument" := "ARG", "local" := "LCL", "this" := "THIS", "that" := "THAT"]

  /** `get_ram_code`: a lookup that raises for a segment the mapper lacks. */
  function RamCode(segment: string): Result<string, CodeError> {
    if segment in SegmentsMapper then Success(SegmentsMapper[segment])
    else Failure(UnknownRamSegment(segment))
  }

  /** The register behind a mapped segment. */
  function BaseRegister(segment: string): Register
    requires segment in SegmentsMapper
  {
    if segment == "argument" then ARG
    else if segment == "local" then LCL
    else if segment == "this" then THIS
    else THAT
  }

  /** The A-instruction that selects a mapped segment's base register. */
  function RamLine(segment: string): string
    requires segment in SegmentsMapper
  {
    "@" + SegmentsMapper[segment]
  }

  /** The mapper names each segment's own register, and the lookup fails for every other name. */
  lemma RamCodeRegister(segment: string)
    ensures RamCode(segment).Success? <==> segment in {"argument", "local", "this", "that"}
    ensures segment in SegmentsMapper ==>
      RamCode(segment).value == RegisterName(BaseRegister(segment))
      && RegisterOf(RamLine(segment)) == Some(BaseRegister(segment))
  {
    if segment in SegmentsMapper {
      RegisterOfName(BaseRegister(segment));
    }
  }

  /** How an f-string renders the index: its decimal digits, or "None". */
  function IndexText(index: Option<nat>): string {
    match index
    case None => "None"
    case Some(i) => NatToString(i)
  }

  /** An A-instruction on an index text never selects a register. */
  lemma IndexLineNotRegister(index: Option<nat>)
    ensures RegisterOf("@" + IndexText(index)).None?
  {
    match index
    case None => NotRegisterSymbol("None", 1);
    case Some(i) => NotRegisterSymbol(NatToString(i), 0);
  }

  /**
    `translate_segment_vm_code`: code that leaves the segment address in A
    (or, for a constant, the value in D).
  */
  function SegmentCode(segment: string, index: Option<nat>, filename: Option<string>)
    : Result<seq<string>, CodeError>
  {
    if segment in {"local", "argument", "this", "that"} then
      var ramCode :- RamCode(segment);
      Success(["@" + ramCode] + (if index == Some(0) then ["A=M"] else ["D=M", "@" + IndexText(index), "A=D+A"]))
    else if segment == "static" then
      if filename.None? then Failure(NoCurrentFile)
      else Success(["@" + filename.value + "." + IndexText(index)])
    else if segment == "pointer" then
      if index == Some(0) then Success(["@THIS"])
      else if index == Some(1) then Success(["@THAT"])
      else Failure(BadPointerIndex(index))
    else if segment == "temp" then Success(["@5", "D=A", "@" + IndexText(index), "A=D+A"])
    else if segment == "constant" then Success(["@" + IndexText(index), "D=A"])
    else Failure(UnknownSegment(segment))
  }

  /** Which segment references resolve, and the error for each one that does not. */
  lemma SegmentCodeOutcome(segment: string, index: Option<nat>, filename: Option<string>)
    ensures var r := SegmentCode(segment, index, filename);
      && (r.Success? <==>
            || segment in SegmentsMapper || segment == "temp" || segment == "constant"
            || (segment == "static" && filename.Some?)
            || (segment == "pointer" && (index == Some(0) || index == Some(1))))
      && (segment == "static" && filename.None? ==> r == Failure(NoCurrentFile))
      && (segment == "pointer" && index != Some(0) && index != Some(1) ==> r == Failure(BadPointerIndex(index)))
      && (r.Failure? && segment != "static" && segment != "pointer" ==> r == Failure(UnknownSegment(segment)))
  {
  }

  /**
    A mapped segment resolves through its register: directly at index 0,
    otherwise by adding the index to the register's value.
  */
  lemma SegmentCodeBase(segment: string, index: Option<nat>, filename: Option<string>)
    requires segment in SegmentsMapper
    ensures SegmentCode(segment, index, filename) == Success(
      [RamLine(segment)] + (if index == Some(0) then ["A=M"] else ["D=M", "@" + IndexText(index), "A=D+A"]))
    ensures Events(SegmentCode(segment, index, filename).value) == [Read(BaseRegister(segment))]
  {
    RamCodeRegister(segment);
    var reg := RamLine(segment);
    if index == Some(0) {
      assert [reg] + ["A=M"] == [reg, "A=M"];
      Events2(reg, "A=M");
    } else {
      var at := "@" + IndexText(index);
      assert [reg] + ["D=M", at, "A=D+A"] == [reg, "D=M", at, "A=D+A"];
      Events4(reg, "D=M", at, "A=D+A");
    }
  }

  /** A static reference names the symbol `<file>.<index>`; no other segment reads a file name. */
  lemma SegmentCodeStatic(index: Option<nat>, file: string, other: Option<string>)
    ensures SegmentCode("static", index, Some(file)) == Success(["@" + file + "." + IndexText(index)])
    ensures forall segment :: segment != "static" ==>
      SegmentCode(segment, index, Some(file)) == SegmentCode(segment, index, other)
  {
  }

  /** Every address sequence except a pointer's ends on an instruction that selects no register. */
  lemma SegmentCodeOpenEnded(segment: string, index: Option<nat>, filename: Option<string>)
    requires SegmentCode(segment, index, filename).Success? && segment != "pointer"
    ensures OpenEnded(SegmentCode(segment, index, filename).value)
    ensures segment !in SegmentsMapper ==> Events(SegmentCode(segment, index, filename).value) == []
  {
    var r := SegmentCode(segment, index, filename).value;
    if segment == "static" {
      var s := filename.value + "." + IndexText(index);
      assert "@" + filename.value + "." + IndexText(index) == "@" + s;
      NotRegisterSymbol(s, |filename.value|);
    } else if segment == "temp" {
      Events4("@5", "D=A", r[2], "A=D+A");
    } else if segment == "constant" {
      Events2(r[0], "D=A");
    }
  }

  // ---------------------------------------------------------- push / pop

  /** Stores D on top of the stack and moves SP up: `*SP = D; SP++`. */
  const PushD: seq<string> := ["@SP", "AM=M+1", "A=A-1", "M=D"]

  /** `translate_push_vm_code_to_asm`; the pseudo-segment "skip" pushes the D register as it is. */
  function PushCode(segment: string, index: Option<nat>, filename: Option<string>)
    : Result<seq<string>, CodeError>
  {
    if segment == "skip" then Success(PushD)
    else
      var address :- SegmentCode(segment, index, filename);
      Success(address + (if segment != "constant" then ["D=M"] else []) + PushD)
  }

  /** `*SP = *addr; SP--`, written without a scratch register: D = addr + v, A = D - v, D = D - A. */
  const PopTail: seq<string> := ["D=A", "@SP", "AM=M-1", "D=D+M", "A=D-M", "D=D-A", "M=D"]

  /** `translate_pop_vm_code_to_asm`: a constant cannot be popped into. */
  function PopCode(segment: string, index: Option<nat>, filename: Option<string>)
    : Result<seq<string>, CodeError>
  {
    if segment == "constant" then Failure(PopConstant)
    else
      var address :- SegmentCode(segment, index, filename);
      Success(address + PopTail)
  }

  /** What a push reads before it stores: the base register of a mapped segment, or the pointer register itself. */
  function PushReads(segment: string, index: Option<nat>): seq<Event> {
    if segment in SegmentsMapper then [Read(BaseRegister(segment))]
    else if segment == "pointer" && index == Some(0) then [Read(THIS)]
    else if segment == "pointer" && index == Some(1) then [Read(THAT)]
    else []
  }

  lemma PushDEvents()
    ensures Events(PushD) == [Inc(SP)]
  {
    assert PairsFrom(EventAt, PushD, 3) == [];
    assert PairsFrom(EventAt, PushD, 2) == EventAt("A=A-1", "M=D") == [];
    assert PairsFrom(EventAt, PushD, 1) == EventAt("AM=M+1", "A=A-1") == [];
    assert PairsFrom(EventAt, PushD, 0) == EventAt("@SP", "AM=M+1") + PairsFrom(EventAt, PushD, 1);
  }

  /** `push pointer 0|1` selects THIS or THAT, reads it and pushes it. */
  lemma PushPointerEvents(index: Option<nat>, filename: Option<string>)
    requires index == Some(0) || index == Some(1)
    ensures var r := PushCode("pointer", index, filename).value;
      && |r| >= 4 && r[|r| - 4..] == PushD
      && Events(r) == PushReads("pointer", index) + [Inc(SP)]
  {
    var reg := if index == Some(0) then "@THIS" else "@THAT";
    var r := PushCode("pointer", index, filename).value;
    assert r == [reg, "D=M"] + PushD;
    assert Events([reg, "D=M"]) == PushReads("pointer", index) by {
      Events2(reg, "D=M");
    }
    PushDEvents();
    EventsOfBlocks([reg, "D=M"], PushD, PushReads("pointer", index), [Inc(SP)],
                   PushReads("pointer", index) + [Inc(SP)]);
  }

  /** Loading through an open-ended address sequence and then storing adds one push to its events. */
  lemma LoadAndPush(address: seq<string>, load: seq<string>, e: seq<Event>)
    requires OpenEnded(address) && Events(address) == e && (load == [] || load == ["D=M"])
    ensures var r := address + load + PushD;
      |r| >= 4 && r[|r| - 4..] == PushD && Events(r) == e + [Inc(SP)]
  {
    PushDEvents();
    EventsAppend3(address, load, PushD);
    var r := address + load + PushD;
    assert r[|r| - 4..] == PushD;
  }

  /** Every other push loads through an open-ended address sequence, then stores. */
  lemma PushAddressEvents(segment: string, index: Option<nat>, filename: Option<string>)
    requires segment != "pointer" && segment != "skip" && SegmentCode(segment, index, filename).Success?
    ensures var r := PushCode(segment, index, filename).value;
      && |r| >= 4 && r[|r| - 4..] == PushD
      && Events(r) == PushReads(segment, index) + [Inc(SP)]
  {
    var address := SegmentCode(segment, index, filename).value;
    var load: seq<string> := if segment != "constant" then ["D=M"] else [];
    SegmentCodeOpenEnded(segment, index, filename);
    if segment in SegmentsMapper {
      SegmentCodeBase(segment, index, filename);
    }
    LoadAndPush(address, load, PushReads(segment, index));
  }

  /**
    A push succeeds exactly when its address resolves (or is "skip"), ends
    with the four-line store, and touches the pointer registers by one read
    of the segment's register and one increment of SP.
  */
  lemma PushCodeEvents(segment: string, index: Option<nat>, filename: Option<string>)
    ensures PushCode(segment, index, filename).Success? <==>
      segment == "skip" || SegmentCode(segment, index, filename).Success?
    ensures PushCode(segment, index, filename).Success? ==>
      var r := PushCode(segment, index, filename).value;
      && |r| >= 4 && r[|r| - 4..] == PushD
      && Events(r) == (if segment == "skip" then [] else PushReads(segment, index)) + [Inc(SP)]
  {
    if segment == "skip" {
      PushDEvents();
      assert PushD[|PushD| - 4..] == PushD;
    } else if SegmentCode(segment, index, filename).Success? {
      if segment == "pointer" {
        PushPointerEvents(index, filename);
      } else {
        PushAddressEvents(segment, index, filename);
      }
    }
  }

  lemma PopTailEvents()
    ensures Events(PopTail) == [Dec(SP)]
  {
    assert PairsFrom(EventAt, PopTail, 6) == [];
    assert PairsFrom(EventAt, PopTail, 5) == EventAt("D=D-A", "M=D") == [];
    assert PairsFrom(EventAt, PopTail, 4) == EventAt("A=D-M", "D=D-A") == [];
    assert PairsFrom(EventAt, PopTail, 3) == EventAt("D=D+M", "A=D-M") == [];
    assert PairsFrom(EventAt, PopTail, 2) == EventAt("AM=M-1", "D=D+M") == [];
    assert PairsFrom(EventAt, PopTail, 1) == EventAt("@SP", "AM=M-1") + PairsFrom(EventAt, PopTail, 2);
    assert PairsFrom(EventAt, PopTail, 0) == EventAt("D=A", "@SP") + PairsFrom(EventAt, PopTail, 1);
  }

  /** An open-ended address sequence followed by the tail decrements SP once after its own events. */
  lemma AddressThenTail(address: seq<string>, e: seq<Event>)
    requires OpenEnded(address) && Events(address) == e
    ensures Events(address + PopTail) == e + [Dec(SP)]
  {
    PopTailEvents();
    EventsAppend(address, PopTail);
  }

  /** The tail's first instruction ignores whatever register the line before it selects. */
  lemma SelectThenTail(x: string)
    ensures Events([x] + PopTail) == [Dec(SP)]
  {
    var rest := PopTail[1..];
    assert ["D=A"] + rest == PopTail;
    assert [x] + PopTail == [x, "D=A"] + rest;
    PopTailEvents();
    EventsCons(x, "D=A", rest);
    assert EventAt(x, "D=A") == [];
  }

  /**
    `pop pointer 0|1` selects THIS or THAT only as an address, so the one
    event the analysis records is the decrement of SP. The tail's store
    into THIS or THAT goes through A and is stated by `PopPointerStores`.
  */
  lemma PopPointerEvents(index: Option<nat>, filename: Option<string>)
    requires index == Some(0) || index == Some(1)
    ensures Events(PopCode("pointer", index, filename).value) == [Dec(SP)]
  {
    var x := if index == Some(0) then "@THIS" else "@THAT";
    assert PopCode("pointer", index, filename).value == [x] + PopTail;
    SelectThenTail(x);
  }

  /**
    The events of a successful pop: the address sequence's, then the tail's.
    The tail's final store goes through a computed address and is not an
    event (see `PopPointerStores` for the pointer segment).
  */
  lemma PopAddressEvents(segment: string, index: Option<nat>, filename: Option<string>)
    requires segment != "constant" && SegmentCode(segment, index, filename).Success?
    ensures var r := PopCode(segment, index, filename).value;
      Events(r) == (if segment in SegmentsMapper then [Read(BaseRegister(segment))] else []) + [Dec(SP)]
  {
    if segment == "pointer" {
      PopPointerEvents(index, filename);
    } else {
      var address := SegmentCode(segment, index, filename).value;
      var loads := if segment in SegmentsMapper then [Read(BaseRegister(segment))] else [];
      assert PopCode(segment, index, filename).value == address + PopTail;
      assert Events(address) == loads && OpenEnded(address) by {
        SegmentCodeOpenEnded(segment, index, filename);
        if segment in SegmentsMapper {
          SegmentCodeBase(segment, index, filename);
        }
      }
      AddressThenTail(address, loads);
    }
  }

  /**
    A pop succeeds exactly when the segment is not a constant and its address
    resolves, and ends with the seven-line tail. Its directly addressed
    register events are the base read of a mapped segment and one decrement
    of SP; the store through the computed address is not among them.
  */
  lemma PopCodeEvents(segment: string, index: Option<nat>, filename: Option<string>)
    ensures PopCode(segment, index, filename).Success? <==>
      segment != "constant" && SegmentCode(segment, index, filename).Success?
    ensures PopCode(segment, index, filename).Success? ==>
      var r := PopCode(segment, index, filename).value;
      && |r| >= 7 && r[|r| - 7..] == PopTail
      && Events(r) == (if segment in SegmentsMapper then [Read(BaseRegister(segment))] else []) + [Dec(SP)]
  {
    var r := PopCode(segment, index, filename);
    if r.Success? {
      var address := SegmentCode(segment, index, filename).value;
      assert r.value == address + PopTail;
      assert r.value[|r.value| - 7..] == PopTail;
      PopAddressEvents(segment, index, filename);
    }
  }

  /**
    The pop tail stores the popped value at the address the segment code
    left in A: starting with A = addr, SP = sp and v on top of the stack, it
    ends with SP = sp - 1 and RAM[addr] = v, the identity
    (addr + v) - v = addr holding modulo 2^16.
  */
  lemma PopTailStores(addr: int, sp: int, v: int, d: int, ram: map<int, int>)
    requires 0 <= addr < WordCount && 2 <= sp < WordCount && 0 <= v < WordCount
    requires 0 in ram && sp - 1 in ram && addr in ram
    requires ram[0] == sp && ram[sp - 1] == v
    ensures Run(PopTail, Machine(addr, d, ram)) == Some(Machine(addr, v, ram[0 := sp - 1][addr := v]))
  {
    WrapSumIdentity(addr, v);
    var m1 := Machine(addr, addr, ram);
    var m2 := m1.(a := 0);
    var ram3 := ram[0 := sp - 1];
    var m3 := Machine(sp - 1, addr, ram3);
    var m4 := m3.(d := Wrap(addr + v));
    var m5 := m4.(a := addr);
    var m6 := m5.(d := v);
    var m7 := m6.(ram := ram3[addr := v]);
    assert Exec("D=A", Machine(addr, d, ram)) == Some(m1);
    assert Exec("@SP", m1) == Some(m2);
    assert Exec("AM=M-1", m2) == Some(m3);
    assert Exec("D=D+M", m3) == Some(m4);
    assert Exec("A=D-M", m4) == Some(m5);
    assert Exec("D=D-A", m5) == Some(m6);
    assert Exec("M=D", m6) == Some(m7);
    assert Run(PopTail[6..], m6) == Some(m7);
    assert Run(PopTail[5..], m5) == Some(m7);
    assert Run(PopTail[4..], m4) == Some(m7);
    assert Run(PopTail[3..], m3) == Some(m7);
    assert Run(PopTail[2..], m2) == Some(m7);
    assert Run(PopTail[1..], m1) == Some(m7);
  }

  /**
    `pop pointer 0|1` overwrites THIS or THAT: the code selects RAM[3] or
    RAM[4] by name and the tail stores the popped value there, moving SP
    down by one. The event analysis cannot see this store, because the tail
    writes through an address computed at run time.
  */
  lemma PopPointerStores(index: Option<nat>, filename: Option<string>, a: int, d: int, sp: int, v: int, ram: map<int, int>)
    requires index == Some(0) || index == Some(1)
    requires 2 <= sp < WordCount && 0 <= v < WordCount
    requires 0 in ram && sp - 1 in ram && 3 + index.value in ram
    requires ram[0] == sp && ram[sp - 1] == v
    ensures var addr := 3 + index.value;
      Run(PopCode("pointer", index, filename).value, Machine(a, d, ram))
        == Some(Machine(addr, v, ram[0 := sp - 1][addr := v]))
  {
    var addr := 3 + index.value;
    var x := if index == Some(0) then "@THIS" else "@THAT";
    var code := PopCode("pointer", index, filename).value;
    assert code == [x] + PopTail;
    assert code[1..] == PopTail;
    assert Exec(x, Machine(a, d, ram)) == Some(Machine(addr, d, ram));
    PopTailStores(addr, sp, v, d, ram);
  }

  // ---------------------------------------------------------- generated labels

  /** The three families of labels the writer generates from its counters. */
  datatype LabelKind = TrueKind | EndKind | ReturnKind

  function LabelPrefix(kind: LabelKind): string {
    match kind
    case TrueKind => "TRUE_"
    case EndKind => "END_"
    case ReturnKind => "RETURN_"
  }

  /** `TRUE_k`, `END_k` or `RETURN_k`. */
  function GeneratedLabel(kind: LabelKind, k: nat): string {
    LabelPrefix(kind) + NatToString(k)
  }

  predicate IsDecimal(s: string) { |s| >= 1 && AllDigits(s) }

  /** Recovers the family and counter value a generated label was made from. */
  function ReadLabel(name: string): Option<(LabelKind, nat)> {
    if StartsWith(name, "TRUE_") && IsDecimal(name[5..]) then Some((TrueKind, DigitsValue(name[5..])))
    else if StartsWith(name, "END_") && IsDecimal(name[4..]) then Some((EndKind, DigitsValue(name[4..])))
    else if StartsWith(name, "RETURN_") && IsDecimal(name[7..]) then Some((ReturnKind, DigitsValue(name[7..])))
    else None
  }

  lemma NotStartsWith(s: string, prefix: string)
    requires |s| >= 1 && |prefix| >= 1 && s[0] != prefix[0]
    ensures !StartsWith(s, prefix)
  {
    if |prefix| <= |s| {
      assert s[..|prefix|][0] == s[0];
    }
  }

  lemma ReadPrefixed(prefix: string, digits: string)
    requires IsDecimal(digits)
    ensures var name := prefix + digits;
      StartsWith(name, prefix) && name[|prefix|..] == digits
  {
    var name := prefix + digits;
    assert name[..|prefix|] == prefix;
    assert name[|prefix|..] == digits;
  }

  /** A generated label reads back as the family and counter value it was made from. */
  lemma ReadGeneratedLabel(kind: LabelKind, k: nat)
    ensures ReadLabel(GeneratedLabel(kind, k)) == Some((kind, k))
  {
    var digits := NatToString(k);
    DigitsValueOfNatToString(k);
    var name := LabelPrefix(kind) + digits;
    ReadPrefixed(LabelPrefix(kind), digits);
    match kind
    case TrueKind =>
    case EndKind =>
      NotStartsWith(name, "TRUE_");
    case ReturnKind =>
      NotStartsWith(name, "TRUE_");
      NotStartsWith(name, "END_");
  }

  /** Two generated labels coincide only when family and counter value both do. */
  lemma GeneratedLabelInjective(kind1: LabelKind, i: nat, kind2: LabelKind, j: nat)
    ensures GeneratedLabel(kind1, i) == GeneratedLabel(kind2, j) <==> kind1 == kind2 && i == j
  {
    ReadGeneratedLabel(kind1, i);
    ReadGeneratedLabel(kind2, j);
  }

  /** A name with a prefix free of dots followed by decimal digits has no dot. */
  lemma PrefixedDecimalHasNoDot(name: string, n: nat)
    requires n <= |name| && '.' !in name[..n] && AllDigits(name[n..])
    ensures '.' !in name
  {
    forall i | 0 <= i < |name| ensures name[i] != '.' {
      if i < n {
        assert name[i] == name[..n][i];
      } else {
        assert name[i] == name[n..][i - n];
      }
    }
  }

  // ------------------------------------------------------------ branching

  /** Inside a function, a label is qualified by the function's name; outside, it is used as is. */
  function ScopedLabel(currentFunction: Option<string>, name: string): string {
    match currentFunction
    case Some(f) => f + "." + name
    case None => name
  }

  /** A label scoped to a function can never coincide with a generated label. */
  lemma ScopedLabelNotGenerated(f: string, name: string)
    ensures ReadLabel(ScopedLabel(Some(f), name)).None?
  {
    var l := f + "." + name;
    assert l[|f|] == '.';
    if StartsWith(l, "TRUE_") && IsDecimal(l[5..]) {
      PrefixedDecimalHasNoDot(l, 5);
    } else if StartsWith(l, "END_") && IsDecimal(l[4..]) {
      PrefixedDecimalHasNoDot(l, 4);
    } else if StartsWith(l, "RETURN_") && IsDecimal(l[7..]) {
      PrefixedDecimalHasNoDot(l, 7);
    }
  }

  lemma DotBeforeSuffix(f: string, name: string)
    ensures var s := f + "." + name; s[|s| - |name| - 1] == '.'
  {
  }

  /**
    Scoping keeps labels apart: two dot-free labels scoped to functions give
    the same symbol exactly when function and label both agree.
  */
  lemma ScopedLabelInjective(f1: string, name1: string, f2: string, name2: string)
    requires '.' !in name1 && '.' !in name2
    ensures ScopedLabel(Some(f1), name1) == ScopedLabel(Some(f2), name2) <==> f1 == f2 && name1 == name2
  {
    var s1 := f1 + "." + name1;
    var s2 := f2 + "." + name2;
    if s1 == s2 {
      if |name1| < |name2| {
        DotBeforeSuffix(f1, name1);
        assert false;
      } else if |name2| < |name1| {
        DotBeforeSuffix(f2, name2);
        assert false;
      }
      assert name1 == s1[|s1| - |name1|..];
      assert name2 == s2[|s2| - |name2|..];
      assert f1 == s1[..|f1|];
      assert f2 == s2[..|f2|];
    }
  }

  /** `write_label`: declares the scoped label. */
  function LabelCode(currentFunction: Option<string>, name: string): seq<string> {
    ["(" + ScopedLabel(currentFunction, name) + ")"]
  }

  /** `write_goto`: jumps to the scoped label unconditionally. */
  function GotoCode(currentFunction: Option<string>, name: string): seq<string> {
    ["@" + ScopedLabel(currentFunction, name), "0;JMP"]
  }

  /** `write_if`: pops the top of the stack and jumps to the scoped label when it is not zero. */
  function IfCode(currentFunction: Option<string>, name: string): seq<string> {
    ["@SP", "AM=M-1", "D=M", "@" + ScopedLabel(currentFunction, name), "D;JNE"]
  }

  /** A label command declares its scoped label and touches no register. */
  lemma LabelCodeEffects(currentFunction: Option<string>, name: string)
    ensures Declared(LabelCode(currentFunction, name)) == [ScopedLabel(currentFunction, name)]
    ensures Events(LabelCode(currentFunction, name)) == []
  {
    DeclaredLabelLine(ScopedLabel(currentFunction, name));
  }

  /** A goto declares nothing and touches no register. */
  lemma GotoCodeEffects(currentFunction: Option<string>, name: string)
    ensures Declared(GotoCode(currentFunction, name)) == []
    ensures Events(GotoCode(currentFunction, name)) == []
  {
    var target := "@" + ScopedLabel(currentFunction, name);
    assert target[0] == '@';
    DeclaredNoneAll(GotoCode(currentFunction, name));
    Events2(target, "0;JMP");
  }

  /** Popping the top of the stack into D decrements SP. */
  lemma PopToDEffects()
    ensures Events(["@SP", "AM=M-1", "D=M"]) == [Dec(SP)] && OpenEnded(["@SP", "AM=M-1", "D=M"])
  {
    Events3("@SP", "AM=M-1", "D=M");
  }

  /** An if-goto declares nothing and pops exactly once. */
  lemma IfCodeEffects(currentFunction: Option<string>, name: string)
    ensures Declared(IfCode(currentFunction, name)) == []
    ensures Events(IfCode(currentFunction, name)) == [Dec(SP)]
  {
    var target := "@" + ScopedLabel(currentFunction, name);
    assert target[0] == '@';
    var branch := IfCode(currentFunction, name);
    DeclaredNoneAll(branch);
    var pop: seq<string> := ["@SP", "AM=M-1", "D=M"];
    var jump: seq<string> := [target, "D;JNE"];
    assert branch == pop + jump;
    PopToDEffects();
    assert Events(jump) == [] by {
      Events2(target, "D;JNE");
    }
    EventsOfBlocks(pop, jump, [Dec(SP)], [], [Dec(SP)]);
  }

  // ----------------------------------------------------------- arithmetic

  const ArithmeticOperators: set<string> := {"add", "sub", "neg", "eq", "gt", "lt", "and", "or", "not"}

  predicate IsUnary(command: string) { command == "neg" || command == "not" }

  predicate IsComparison(command: string) { command == "eq" || command == "gt" || command == "lt" }

  /** Pops the operand into M, and for a binary operator the first operand into D first. */
  function PopOperands(command: string): seq<string> {
    ["@SP", "AM=M-1"] + (if IsUnary(command) then [] else ["D=M", "@SP", "AM=M-1"])
  }

  function JumpFor(command: string): string
    requires IsComparison(command)
  {
    if command == "eq" then "D;JEQ" else if command == "gt" then "D;JGT" else "D;JLT"
  }

  /** Leaves -1 (true) or 0 (false) in the operand slot, using the labels `TRUE_k` and `END_k`. */
  function CompareCode(command: string, k: nat): seq<string>
    requires IsComparison(command)
  {
    var t := GeneratedLabel(TrueKind, k);
    ["D=M-D", "@" + t] + [JumpFor(command)] + SettleComparison(t, GeneratedLabel(EndKind, k))
  }

  /** D = 0 unless the jump to `t` was taken (then D = -1); `e` joins the branches; D goes to the operand slot. */
  function SettleComparison(t: string, e: string): seq<string> {
    ["D=0", "@" + e, "0;JMP"] + ["(" + t + ")", "D=-1", "(" + e + ")"] + ["@SP", "A=M", "M=D"]
  }

  function OperatorCode(command: string, k: nat): Result<seq<string>, CodeError> {
    if command == "add" then Success(["M=M+D"])
    else if command == "sub" then Success(["M=M-D"])
    else if command == "neg" then Success(["M=-M"])
    else if IsComparison(command) then Success(CompareCode(command, k))
    else if command == "and" then Success(["M=D&M"])
    else if command == "or" then Success(["M=D|M"])
    else if command == "not" then Success(["M=!M"])
    else Failure(UnknownArithmetic(command))
  }

  /**
    `translate_arithmetic_vm_code_to_assembly` with `k` the comparison
    counter on entry: operands popped, the operator applied in place, SP
    moved past the result.
  */
  function ArithmeticCode(command: Option<string>, k: nat): Result<seq<string>, CodeError> {
    match command
    case None => Failure(NoneCommand)
    case Some(c) =>
      var op :- OperatorCode(c, k);
      Success(PopOperands(c) + op + ["@SP", "M=M+1"])
  }

  lemma SettleComparisonEvents(t: string, e: string)
    ensures Events(SettleComparison(t, e)) == [Read(SP)]
  {
    Events3("D=0", "@" + e, "0;JMP");
    Events3("(" + t + ")", "D=-1", "(" + e + ")");
    Events3("@SP", "A=M", "M=D");
    ParenNotRegister(e);
    EventsAppend3(["D=0", "@" + e, "0;JMP"], ["(" + t + ")", "D=-1", "(" + e + ")"], ["@SP", "A=M", "M=D"]);
  }

  /** A comparison reads SP once (to store its result) and moves it no further. */
  lemma CompareCodeEvents(command: string, k: nat)
    requires IsComparison(command)
    ensures Events(CompareCode(command, k)) == [Read(SP)]
  {
    var t := GeneratedLabel(TrueKind, k);
    var e := GeneratedLabel(EndKind, k);
    var a := ["D=M-D", "@" + t];
    var b := [JumpFor(command)];
    var c := SettleComparison(t, e);
    Events2("D=M-D", "@" + t);
    NotRegisterSymbol(t, |LabelPrefix(TrueKind)| - 1);
    SettleComparisonEvents(t, e);
    EventsAppend3(a, b, c);
  }

  lemma SettleComparisonDeclares(t: string, e: string)
    ensures Declared(SettleComparison(t, e)) == [t, e]
  {
    var a := ["D=0", "@" + e, "0;JMP"];
    var b := ["(" + t + ")", "D=-1", "(" + e + ")"];
    var c := ["@SP", "A=M", "M=D"];
    assert Declared(a) == [] by {
      assert ("@" + e)[0] == '@';
      DeclaredNoneAll(a);
    }
    assert Declared(b) == [t, e] by {
      DeclaredLabelLine(t);
      DeclaredLabelLine(e);
      DeclaredAppend(["(" + t + ")"], ["D=-1"]);
      DeclaredAppend(["(" + t + ")"] + ["D=-1"], ["(" + e + ")"]);
      assert b == ["(" + t + ")"] + ["D=-1"] + ["(" + e + ")"];
    }
    DeclaredNoneAll(c);
    DeclaredAppend(a, b);
    DeclaredAppend(a + b, c);
  }

  /** A comparison declares `TRUE_k` and then `END_k`. */
  lemma CompareCodeDeclares(command: string, k: nat)
    requires IsComparison(command)
    ensures Declared(CompareCode(command, k)) == [GeneratedLabel(TrueKind, k), GeneratedLabel(EndKind, k)]
  {
    var t := GeneratedLabel(TrueKind, k);
    var e := GeneratedLabel(EndKind, k);
    var a := ["D=M-D", "@" + t] + [JumpFor(command)];
    assert ("@" + t)[0] == '@';
    DeclaredNoneAll(a);
    SettleComparisonDeclares(t, e);
    DeclaredAppend(a, SettleComparison(t, e));
  }

  /** An arithmetic command translates exactly when it is one of the nine operators. */
  lemma ArithmeticCodeOutcome(command: Option<string>, k: nat)
    ensures ArithmeticCode(command, k).Success? <==> command.Some? && command.value in ArithmeticOperators
    ensures command.None? ==> ArithmeticCode(command, k) == Failure(NoneCommand)
    ensures command.Some? && command.value !in ArithmeticOperators ==>
      ArithmeticCode(command, k) == Failure(UnknownArithmetic(command.value))
  {
  }

  /** The pieces of a translated operator: operand pops, the operator, the SP increment. */
  lemma ArithmeticCodeParts(c: string, k: nat)
    requires c in ArithmeticOperators
    ensures ArithmeticCode(Some(c), k) == Success(PopOperands(c) + OperatorCode(c, k).value + ["@SP", "M=M+1"])
    ensures OpenEnded(PopOperands(c)) && OpenEnded(OperatorCode(c, k).value)
    ensures IsComparison(c) ==> OperatorCode(c, k).value == CompareCode(c, k)
    ensures !IsComparison(c) ==> |OperatorCode(c, k).value| == 1 && OperatorCode(c, k).value[0][0] == 'M'
  {
  }

  /** Popping the operands decrements SP once per operand. */
  lemma PopOperandsEvents(c: string)
    ensures Events(PopOperands(c)) == if IsUnary(c) then [Dec(SP)] else [Dec(SP), Dec(SP)]
  {
    Events2("@SP", "AM=M-1");
    if IsUnary(c) {
      assert PopOperands(c) == ["@SP", "AM=M-1"];
    } else {
      Events3("D=M", "@SP", "AM=M-1");
      EventsAppend(["@SP", "AM=M-1"], ["D=M", "@SP", "AM=M-1"]);
    }
  }

  /**
    neg and not pop one operand and every other operator two, so the stack
    shrinks by one for a binary operator and keeps its height for a unary
    one; a comparison also reads SP to store its result.
  */
  lemma ArithmeticCodeEvents(c: string, k: nat)
    requires c in ArithmeticOperators
    ensures var r := ArithmeticCode(Some(c), k).value;
      && r[|r| - 2..] == ["@SP", "M=M+1"]
      && Events(r) == (if IsUnary(c) then [Dec(SP)] else [Dec(SP), Dec(SP)])
                      + (if IsComparison(c) then [Read(SP)] else []) + [Inc(SP)]
      && StackEffect(Events(r)) == (if IsUnary(c) then 0 else -1)
  {
    ArithmeticCodeParts(c, k);
    var pops := PopOperands(c);
    var op := OperatorCode(c, k).value;
    var tail := ["@SP", "M=M+1"];
    var popEvents := if IsUnary(c) then [Dec(SP)] else [Dec(SP), Dec(SP)];
    var opEvents := if IsComparison(c) then [Read(SP)] else [];
    assert Events(pops + op + tail) == popEvents + opEvents + [Inc(SP)] by {
      PopOperandsEvents(c);
      if IsComparison(c) {
        CompareCodeEvents(c, k);
      } else {
        Events2(op[0], op[0]);
        assert Events(op) == [];
      }
      Events2("@SP", "M=M+1");
      EventsAppend3(pops, op, tail);
    }
    assert StackEffect(popEvents + opEvents + [Inc(SP)]) == (if IsUnary(c) then 0 else -1) by {
      StackEffectAppend(popEvents, opEvents);
      StackEffectAppend(popEvents + opEvents, [Inc(SP)]);
      StackEffectSingle(Inc(SP));
      StackEffectSingle(Dec(SP));
      StackEffectSingle(Read(SP));
      assert StackEffect([]) == 0;
      if !IsUnary(c) {
        assert popEvents == [Dec(SP)] + [Dec(SP)];
        StackEffectAppend([Dec(SP)], [Dec(SP)]);
      }
    }
    var r := pops + op + tail;
    assert r[|r| - 2..] == tail;
  }

  /** Only a comparison declares labels: `TRUE_k`, then `END_k`. */
  lemma ArithmeticCodeDeclares(c: string, k: nat)
    requires c in ArithmeticOperators
    ensures Declared(ArithmeticCode(Some(c), k).value)
      == (if IsComparison(c) then [GeneratedLabel(TrueKind, k), GeneratedLabel(EndKind, k)] else [])
  {
    ArithmeticCodeParts(c, k);
    var pops := PopOperands(c);
    var op := OperatorCode(c, k).value;
    var tail := ["@SP", "M=M+1"];
    DeclaredNoneAll(pops);
    DeclaredNoneAll(tail);
    if IsComparison(c) {
      CompareCodeDeclares(c, k);
    } else {
      DeclaredNoneAll(op);
    }
    DeclaredAppend(pops, op);
    DeclaredAppend(pops + op, tail);
  }

  // ------------------------------------------------------------ functions

  /** `*(LCL + i) = 0; SP++`: one zero-initialised local variable. */
  function LocalInit(i: nat): seq<string> {
    [RamLine("local"), "D=M", "@" + NatToString(i), "A=D+A", "M=0", "@SP", "M=M+1"]
  }

  /** The first `n` local-variable blocks, in index order. */
  function LocalInits(n: nat): seq<string> {
    if n == 0 then [] else LocalInits(n - 1) + LocalInit(n - 1)
  }

  /** `write_function`: the entry label, then one block per local; a missing count is a TypeError. */
  function FunctionCode(name: string, count: Option<nat>): Result<seq<string>, CodeError> {
    match count
    case None => Failure(NoneCount)
    case Some(n) => Success(["(" + name + ")"] + LocalInits(n))
  }

  function Repeat(events: seq<Event>, n: nat): seq<Event> {
    if n == 0 then [] else Repeat(events, n - 1) + events
  }

  /** Each local's block reads LCL, then pushes. */
  lemma LocalInitEffects(i: nat)
    ensures Events(LocalInit(i)) == [Read(LCL), Inc(SP)] && OpenEnded(LocalInit(i))
  {
    assert [Read(LCL)] + [] + [Inc(SP)] == [Read(LCL), Inc(SP)];
    var x: seq<string> := [RamLine("local"), "D=M"];
    var y: seq<string> := ["@" + NatToString(i), "A=D+A", "M=0"];
    var z: seq<string> := ["@SP", "M=M+1"];
    assert LocalInit(i) == x + y + z;
    assert Events(x) == [Read(LCL)] && OpenEnded(x) by {
      RamCodeRegister("local");
      Events2(RamLine("local"), "D=M");
    }
    assert Events(y) == [] && OpenEnded(y) by {
      IndexLineNotRegister(Some(i));
      Events3("@" + NatToString(i), "A=D+A", "M=0");
    }
    assert Events(z) == [Inc(SP)] && OpenEnded(z) by {
      Events2("@SP", "M=M+1");
    }
    EventsOfBlocks3(x, y, z, [Read(LCL)], [], [Inc(SP)], [Read(LCL), Inc(SP)]);
  }

  lemma LocalInitDeclares(i: nat)
    ensures Declared(LocalInit(i)) == [] && |LocalInit(i)| == 7
  {
    assert RamLine("local")[0] == '@' && ("@" + NatToString(i))[0] == '@';
    DeclaredNoneAll(LocalInit(i));
  }

  /** Repeating a block repeats its stack effect. */
  lemma {:induction false} RepeatStackEffect(events: seq<Event>, n: nat)
    ensures StackEffect(Repeat(events, n)) == n * StackEffect(events)
  {
    if n > 0 {
      RepeatStackEffect(events, n - 1);
      StackEffectAppend(Repeat(events, n - 1), events);
      assert (n - 1) * StackEffect(events) + StackEffect(events) == n * StackEffect(events);
    }
  }

  /** Reading a register and pushing grows the stack by one. */
  lemma ReadAndPushStackEffect(r: Register)
    ensures StackEffect([Read(r), Inc(SP)]) == 1
  {
    assert [Read(r), Inc(SP)] == [Read(r)] + [Inc(SP)];
    StackEffectAppend([Read(r)], [Inc(SP)]);
    StackEffectSingle(Read(r));
    StackEffectSingle(Inc(SP));
  }

  lemma {:induction false} LocalInitsEffects(n: nat)
    ensures |LocalInits(n)| == 7 * n
    ensures Events(LocalInits(n)) == Repeat([Read(LCL), Inc(SP)], n) && OpenEnded(LocalInits(n))
  {
    if n > 0 {
      var e := [Read(LCL), Inc(SP)];
      LocalInitsEffects(n - 1);
      LocalInitEffects(n - 1);
      LocalInitDeclares(n - 1);
      EventsOfBlocks(LocalInits(n - 1), LocalInit(n - 1), Repeat(e, n - 1), e, Repeat(e, n));
    }
  }

  lemma {:induction false} LocalInitsDeclares(n: nat)
    ensures Declared(LocalInits(n)) == []
  {
    if n > 0 {
      LocalInitsDeclares(n - 1);
      LocalInitDeclares(n - 1);
      DeclaredAppend(LocalInits(n - 1), LocalInit(n - 1));
    }
  }

  /** Zero-initialising `n` locals pushes `n` words. */
  lemma LocalInitsStackEffect(n: nat)
    ensures StackEffect(Events(LocalInits(n))) == n
  {
    LocalInitsEffects(n);
    RepeatStackEffect([Read(LCL), Inc(SP)], n);
    ReadAndPushStackEffect(LCL);
  }

  /**
    A function declaration needs its local count; it declares the function's
    own name as a label and zero-initialises exactly `n` locals, pushing
    each one (7 lines apiece).
  */
  lemma FunctionCodeEffects(name: string, count: Option<nat>)
    ensures FunctionCode(name, count).Success? <==> count.Some?
    ensures count.None? ==> FunctionCode(name, count) == Failure(NoneCount)
    ensures count.Some? ==>
      var r := FunctionCode(name, count).value;
      var n := count.value;
      && |r| == 1 + 7 * n && r[0] == "(" + name + ")"
      && Events(r) == Repeat([Read(LCL), Inc(SP)], n)
      && StackEffect(Events(r)) == n
      && Declared(r) == [name]
  {
    if count.Some? {
      var n := count.value;
      var head := ["(" + name + ")"];
      LocalInitsEffects(n);
      LocalInitsStackEffect(n);
      LocalInitsDeclares(n);
      assert Events(head) == [] && OpenEnded(head) by {
        ParenNotRegister(name);
      }
      EventsOfBlocks(head, LocalInits(n), [], Repeat([Read(LCL), Inc(SP)], n), Repeat([Read(LCL), Inc(SP)], n));
      DeclaredLabelLine(name);
      DeclaredAppend(head, LocalInits(n));
    }
  }

  // ------------------------------------------------------------------ call

  /** Pushes the return address `RETURN_k`. */
  function PushReturnAddress(k: nat): seq<string> {
    ["@" + GeneratedLabel(ReturnKind, k), "D=A"] + PushD
  }

  /** The caller's registers a call saves, in the order it pushes them. */
  const FrameSegments: seq<string> := ["local", "argument", "this", "that"]

  /** Pushes the value of a segment's base register. */
  function SaveRegister(segment: string): seq<string>
    requires segment in SegmentsMapper
  {
    [RamLine(segment), "D=M"] + PushD
  }

  function SaveRegisters(segments: seq<string>): seq<string>
    requires forall i :: 0 <= i < |segments| ==> segments[i] in SegmentsMapper
  {
    if segments == [] then []
    else SaveRegisters(segments[..|segments| - 1]) + SaveRegister(segments[|segments| - 1])
  }

  /** ARG = SP - n - 5: the callee's arguments start below the five saved words. */
  function RepositionArg(n: nat): seq<string> {
    ["@SP", "D=M", "@" + NatToString(n + 5), "D=D-A", RamLine("argument"), "M=D"]
  }

  /** LCL = SP. */
  function RepositionLcl(): seq<string> {
    ["@SP", "D=M", RamLine("local"), "M=D"]
  }

  /** Jumps to the callee and declares the return label right after the jump. */
  function TransferControl(name: string, ret: string): seq<string> {
    ["@" + name, "0;JMP", "(" + ret + ")"]
  }

  /** `write_call` with `k` the return counter on entry; a missing argument count is a TypeError. */
  function CallCode(name: string, count: Option<nat>, k: nat): Result<seq<string>, CodeError> {
    match count
    case None => Failure(NoneCount)
    case Some(n) =>
      Success(PushReturnAddress(k) + SaveRegisters(FrameSegments) + RepositionArg(n) + RepositionLcl()
              + TransferControl(name, GeneratedLabel(ReturnKind, k)))
  }

  /** The events of saving each segment's register: a read, then a push. */
  function SavedEvents(segments: seq<string>): seq<Event>
    requires forall i :: 0 <= i < |segments| ==> segments[i] in SegmentsMapper
  {
    if segments == [] then []
    else SavedEvents(segments[..|segments| - 1]) + [Read(BaseRegister(segments[|segments| - 1])), Inc(SP)]
  }

  lemma SaveRegisterEffects(segment: string)
    requires segment in SegmentsMapper
    ensures Events(SaveRegister(segment)) == [Read(BaseRegister(segment)), Inc(SP)]
    ensures OpenEnded(SaveRegister(segment))
  {
    assert [Read(BaseRegister(segment))] + [Inc(SP)] == [Read(BaseRegister(segment)), Inc(SP)];
    var x: seq<string> := [RamLine(segment), "D=M"];
    assert Events(x) == [Read(BaseRegister(segment))] && OpenEnded(x) by {
      RamCodeRegister(segment);
      Events2(RamLine(segment), "D=M");
    }
    PushDEvents();
    EventsOfBlocks(x, PushD, [Read(BaseRegister(segment))], [Inc(SP)], [Read(BaseRegister(segment)), Inc(SP)]);
  }

  lemma SaveRegisterDeclares(segment: string)
    requires segment in SegmentsMapper
    ensures Declared(SaveRegister(segment)) == []
  {
    assert RamLine(segment)[0] == '@';
    DeclaredNoneAll(SaveRegister(segment));
  }

  lemma {:induction false} SaveRegistersEffects(segments: seq<string>)
    requires forall i :: 0 <= i < |segments| ==> segments[i] in SegmentsMapper
    ensures Events(SaveRegisters(segments)) == SavedEvents(segments)
    ensures OpenEnded(SaveRegisters(segments))
    decreases |segments|
  {
    if segments != [] {
      var init := segments[..|segments| - 1];
      var last := segments[|segments| - 1];
      SaveRegistersEffects(init);
      SaveRegisterEffects(last);
      EventsOfBlocks(SaveRegisters(init), SaveRegister(last), SavedEvents(init),
                     [Read(BaseRegister(last)), Inc(SP)], SavedEvents(segments));
    }
  }

  lemma {:induction false} SaveRegistersDeclares(segments: seq<string>)
    requires forall i :: 0 <= i < |segments| ==> segments[i] in SegmentsMapper
    ensures Declared(SaveRegisters(segments)) == []
    decreases |segments|
  {
    if segments != [] {
      var init := segments[..|segments| - 1];
      var last := segments[|segments| - 1];
      SaveRegistersDeclares(init);
      SaveRegisterDeclares(last);
      DeclaredAppend(SaveRegisters(init), SaveRegister(last));
    }
  }

  /** The events of saving the caller's frame: LCL, ARG, THIS and THAT, each read and pushed. */
  const FrameEvents: seq<Event> :=
    [Read(LCL), Inc(SP), Read(ARG), Inc(SP), Read(THIS), Inc(SP), Read(THAT), Inc(SP)]

  /** A call saves LCL, ARG, THIS and THAT in that order. */
  lemma FrameSegmentsSaved()
    ensures SavedEvents(FrameSegments) == FrameEvents
  {
    var s1: seq<string> := ["local"];
    var s2: seq<string> := ["local", "argument"];
    var s3: seq<string> := ["local", "argument", "this"];
    assert SavedEvents(s1) == [Read(LCL), Inc(SP)] by { assert s1[..0] == []; }
    assert SavedEvents(s2) == [Read(LCL), Inc(SP), Read(ARG), Inc(SP)] by { assert s2[..1] == s1; }
    assert SavedEvents(s3) == [Read(LCL), Inc(SP), Read(ARG), Inc(SP), Read(THIS), Inc(SP)] by {
      assert s3[..2] == s2;
    }
    assert FrameSegments[..3] == s3;
  }

  /** A generated label holds an underscore, so it never names a register. */
  lemma GeneratedLabelNotRegister(kind: LabelKind, k: nat)
    ensures RegisterOf("@" + GeneratedLabel(kind, k)).None?
  {
    var name := GeneratedLabel(kind, k);
    var i := |LabelPrefix(kind)| - 1;
    assert name[i] == '_';
    NotRegisterSymbol(name, i);
  }

  lemma PushReturnAddressEffects(k: nat)
    ensures Events(PushReturnAddress(k)) == [Inc(SP)] && OpenEnded(PushReturnAddress(k))
  {
    assert [] + [Inc(SP)] == [Inc(SP)];
    var x: seq<string> := ["@" + GeneratedLabel(ReturnKind, k), "D=A"];
    assert Events(x) == [] && OpenEnded(x) by {
      GeneratedLabelNotRegister(ReturnKind, k);
      Events2(x[0], "D=A");
    }
    PushDEvents();
    EventsOfBlocks(x, PushD, [], [Inc(SP)], [Inc(SP)]);
  }

  lemma PushReturnAddressDeclares(k: nat)
    ensures Declared(PushReturnAddress(k)) == []
  {
    assert ("@" + GeneratedLabel(ReturnKind, k))[0] == '@';
    DeclaredNoneAll(PushReturnAddress(k));
  }

  lemma RepositionArgEffects(n: nat)
    ensures Events(RepositionArg(n)) == [Read(SP), Write(ARG)]
    ensures OpenEnded(RepositionArg(n))
  {
    assert [Read(SP)] + [] + [Write(ARG)] == [Read(SP), Write(ARG)];
    var x: seq<string> := ["@SP", "D=M"];
    var y: seq<string> := ["@" + NatToString(n + 5), "D=D-A"];
    var z: seq<string> := [RamLine("argument"), "M=D"];
    assert RepositionArg(n) == x + y + z;
    assert Events(x) == [Read(SP)] && OpenEnded(x) by {
      Events2("@SP", "D=M");
    }
    assert Events(y) == [] && OpenEnded(y) by {
      IndexLineNotRegister(Some(n + 5));
      Events2("@" + NatToString(n + 5), "D=D-A");
    }
    assert Events(z) == [Write(ARG)] && OpenEnded(z) by {
      RamCodeRegister("argument");
      Events2(RamLine("argument"), "M=D");
    }
    EventsOfBlocks3(x, y, z, [Read(SP)], [], [Write(ARG)], [Read(SP), Write(ARG)]);
  }

  lemma RepositionLclEffects()
    ensures Events(RepositionLcl()) == [Read(SP), Write(LCL)]
    ensures OpenEnded(RepositionLcl())
  {
    assert [Read(SP)] + [Write(LCL)] == [Read(SP), Write(LCL)];
    var x: seq<string> := ["@SP", "D=M"];
    var y: seq<string> := [RamLine("local"), "M=D"];
    assert RepositionLcl() == x + y;
    assert Events(x) == [Read(SP)] && OpenEnded(x) by {
      Events2("@SP", "D=M");
    }
    assert Events(y) == [Write(LCL)] && OpenEnded(y) by {
      RamCodeRegister("local");
      Events2(RamLine("local"), "M=D");
    }
    EventsOfBlocks(x, y, [Read(SP)], [Write(LCL)], [Read(SP), Write(LCL)]);
  }

  lemma TransferControlEffects(name: string, ret: string)
    ensures Events(TransferControl(name, ret)) == []
    ensures Declared(TransferControl(name, ret)) == [ret]
  {
    var x: seq<string> := ["@" + name, "0;JMP"];
    var y: seq<string> := ["(" + ret + ")"];
    assert TransferControl(name, ret) == x + y;
    Events3("@" + name, "0;JMP", "(" + ret + ")");
    assert Declared(x) == [] by {
      assert x[0][0] == '@';
      DeclaredNoneAll(x);
    }
    DeclaredLabelLine(ret);
    DeclaredAppend(x, y);
  }

  /** The events of resetting the frame pointers: ARG from SP, then LCL to SP. */
  const RepositionEvents: seq<Event> := [Read(SP), Write(ARG), Read(SP), Write(LCL)]

  /** The frame pointers are reset in order: ARG from SP, then LCL to SP. */
  lemma RepositionEffects(n: nat)
    ensures Events(RepositionArg(n) + RepositionLcl()) == RepositionEvents
    ensures OpenEnded(RepositionArg(n) + RepositionLcl())
  {
    assert [Read(SP), Write(ARG)] + [Read(SP), Write(LCL)] == RepositionEvents;
    RepositionArgEffects(n);
    RepositionLclEffects();
    EventsOfBlocks(RepositionArg(n), RepositionLcl(), [Read(SP), Write(ARG)], [Read(SP), Write(LCL)],
                   RepositionEvents);
  }

  lemma RepositionDeclares(n: nat)
    ensures Declared(RepositionArg(n) + RepositionLcl()) == []
  {
    assert RamLine("argument")[0] == '@' && RamLine("local")[0] == '@';
    assert ("@" + NatToString(n + 5))[0] == '@';
    DeclaredNoneAll(RepositionArg(n) + RepositionLcl());
  }

  lemma CallTailEffects(name: string, n: nat, ret: string)
    ensures Events(RepositionArg(n) + RepositionLcl() + TransferControl(name, ret)) == RepositionEvents
  {
    assert RepositionEvents + [] == RepositionEvents;
    RepositionEffects(n);
    TransferControlEffects(name, ret);
    EventsOfBlocks(RepositionArg(n) + RepositionLcl(), TransferControl(name, ret),
                   RepositionEvents, [], RepositionEvents);
  }

  lemma CallTailDeclares(name: string, n: nat, ret: string)
    ensures Declared(RepositionArg(n) + RepositionLcl() + TransferControl(name, ret)) == [ret]
  {
    RepositionDeclares(n);
    TransferControlEffects(name, ret);
    DeclaredAppend(RepositionArg(n) + RepositionLcl(), TransferControl(name, ret));
  }

  /**
    The events of every successful call: the push of the return address,
    the saved frame, then ARG and LCL reset from SP.
  */
  const CallEvents: seq<Event> := [Inc(SP)] + FrameEvents + RepositionEvents

  /** The call sequence, for `n` arguments, split into its three parts. */
  lemma CallCodeParts(name: string, n: nat, k: nat)
    ensures CallCode(name, Some(n), k).value
      == PushReturnAddress(k) + SaveRegisters(FrameSegments)
         + (RepositionArg(n) + RepositionLcl() + TransferControl(name, GeneratedLabel(ReturnKind, k)))
  {
  }

  lemma CallCodeEvents(name: string, n: nat, k: nat)
    ensures Events(CallCode(name, Some(n), k).value) == CallEvents
  {
    assert [Inc(SP)] + FrameEvents + RepositionEvents == CallEvents;
    var ret := GeneratedLabel(ReturnKind, k);
    var saves := SaveRegisters(FrameSegments);
    var tail := RepositionArg(n) + RepositionLcl() + TransferControl(name, ret);
    CallCodeParts(name, n, k);
    PushReturnAddressEffects(k);
    SaveRegistersEffects(FrameSegments);
    FrameSegmentsSaved();
    CallTailEffects(name, n, ret);
    EventsOfBlocks3(PushReturnAddress(k), saves, tail, [Inc(SP)], FrameEvents, RepositionEvents, CallEvents);
  }

  lemma CallCodeDeclares(name: string, n: nat, k: nat)
    ensures Declared(CallCode(name, Some(n), k).value) == [GeneratedLabel(ReturnKind, k)]
  {
    var ret := GeneratedLabel(ReturnKind, k);
    var saves := SaveRegisters(FrameSegments);
    var tail := RepositionArg(n) + RepositionLcl() + TransferControl(name, ret);
    CallCodeParts(name, n, k);
    PushReturnAddressDeclares(k);
    SaveRegistersDeclares(FrameSegments);
    CallTailDeclares(name, n, ret);
    DeclaredAppend(PushReturnAddress(k), saves);
    DeclaredAppend(PushReturnAddress(k) + saves, tail);
  }

  /**
    A call needs its argument count. It pushes the return address and then
    LCL, ARG, THIS, THAT in that order (five pushes), sets ARG from SP and
    then LCL to SP, and declares exactly one label, `RETURN_k`, as its last
    line, after the jump to the callee.
  */
  lemma CallCodeEffects(name: string, count: Option<nat>, k: nat)
    ensures CallCode(name, count, k).Success? <==> count.Some?
    ensures count.None? ==> CallCode(name, count, k) == Failure(NoneCount)
    ensures count.Some? ==>
      var r := CallCode(name, count, k).value;
      && r[|r| - 1] == "(" + GeneratedLabel(ReturnKind, k) + ")"
      && Events(r) == CallEvents
      && Declared(r) == [GeneratedLabel(ReturnKind, k)]
  {
    if count.Some? {
      CallCodeEvents(name, count.value, k);
      CallCodeDeclares(name, count.value, k);
    }
  }

  // ---------------------------------------------------------------- return

  /** FRAME = LCL, kept in the scratch variable `frame`. */
  function SaveFrame(): seq<string> {
    [RamLine("local"), "D=M", "@frame", "M=D"]
  }

  /** RET = *(FRAME - 5), kept in the scratch variable `return`. */
  const SaveReturnAddress: seq<string> := ["@5", "A=D-A", "D=M", "@return", "M=D"]

  /** *ARG = pop(); SP = ARG + 1. */
  function PlaceReturnValue(): seq<string> {
    ["@SP", "AM=M-1", "D=M", RamLine("argument"), "A=M", "M=D", "D=A+1", "@SP", "M=D"]
  }

  /** The segment's base register = *(FRAME - offset). */
  function RestoreRegister(offset: nat, segment: string): seq<string>
    requires segment in SegmentsMapper
  {
    ["@frame", "D=M", "@" + NatToString(offset), "A=D-A", "D=M", RamLine(segment), "M=D"]
  }

  /** THAT, THIS, ARG and LCL restored from the four words below the return address. */
  function RestoreCallerFrame(): seq<string> {
    RestoreRegister(1, "that") + RestoreRegister(2, "this") + RestoreRegister(3, "argument")
    + RestoreRegister(4, "local")
  }

  /** goto RET. */
  const JumpToReturn: seq<string> := ["@return", "A=M", "0;JMP"]

  /** `write_return`. */
  function ReturnCode(): seq<string> {
    SaveFrame() + SaveReturnAddress + PlaceReturnValue() + RestoreCallerFrame() + JumpToReturn
  }

  lemma SaveFrameEffects()
    ensures Events(SaveFrame()) == [Read(LCL)] && OpenEnded(SaveFrame())
  {
    assert [Read(LCL)] + [] == [Read(LCL)];
    var lcl := RamLine("local");
    RamCodeRegister("local");
    assert SaveFrame() == [lcl, "D=M"] + ["@frame", "M=D"];
    Events2(lcl, "D=M");
    Events2("@frame", "M=D");
    EventsOfBlocks([lcl, "D=M"], ["@frame", "M=D"], [Read(LCL)], [], [Read(LCL)]);
  }

  lemma SaveReturnAddressEffects()
    ensures Events(SaveReturnAddress) == [] && OpenEnded(SaveReturnAddress)
  {
    assert SaveReturnAddress == ["@5", "A=D-A"] + ["D=M", "@return", "M=D"];
    Events2("@5", "A=D-A");
    Events3("D=M", "@return", "M=D");
    EventsOfBlocks(["@5", "A=D-A"], ["D=M", "@return", "M=D"], [], [], []);
  }

  /** *ARG = D reads ARG. */
  lemma StoreThroughArgEffects()
    ensures var y := [RamLine("argument"), "A=M", "M=D"];
      Events(y) == [Read(ARG)] && OpenEnded(y)
  {
    RamCodeRegister("argument");
    Events3(RamLine("argument"), "A=M", "M=D");
  }

  /** SP = ARG + 1 writes SP. */
  lemma SpPastArgEffects()
    ensures Events(["D=A+1", "@SP", "M=D"]) == [Write(SP)] && OpenEnded(["D=A+1", "@SP", "M=D"])
  {
    Events3("D=A+1", "@SP", "M=D");
  }

  lemma PlaceReturnValueEffects()
    ensures Events(PlaceReturnValue()) == [Dec(SP), Read(ARG), Write(SP)] && OpenEnded(PlaceReturnValue())
  {
    assert [Dec(SP)] + [Read(ARG)] + [Write(SP)] == [Dec(SP), Read(ARG), Write(SP)];
    var x: seq<string> := ["@SP", "AM=M-1", "D=M"];
    var y: seq<string> := [RamLine("argument"), "A=M", "M=D"];
    var z: seq<string> := ["D=A+1", "@SP", "M=D"];
    assert PlaceReturnValue() == x + y + z;
    PopToDEffects();
    StoreThroughArgEffects();
    SpPastArgEffects();
    EventsOfBlocks3(x, y, z, [Dec(SP)], [Read(ARG)], [Write(SP)], [Dec(SP), Read(ARG), Write(SP)]);
  }

  lemma RestoreRegisterEffects(offset: nat, segment: string)
    requires segment in SegmentsMapper
    ensures Events(RestoreRegister(offset, segment)) == [Write(BaseRegister(segment))]
    ensures OpenEnded(RestoreRegister(offset, segment))
  {
    assert [] + [] + [Write(BaseRegister(segment))] == [Write(BaseRegister(segment))];
    var x: seq<string> := ["@frame", "D=M"];
    var y: seq<string> := ["@" + NatToString(offset), "A=D-A", "D=M"];
    var z: seq<string> := [RamLine(segment), "M=D"];
    assert RestoreRegister(offset, segment) == x + y + z;
    assert Events(x) == [] && OpenEnded(x) by {
      Events2("@frame", "D=M");
    }
    assert Events(y) == [] && OpenEnded(y) by {
      IndexLineNotRegister(Some(offset));
      Events3("@" + NatToString(offset), "A=D-A", "D=M");
    }
    assert Events(z) == [Write(BaseRegister(segment))] && OpenEnded(z) by {
      RamCodeRegister(segment);
      Events2(RamLine(segment), "M=D");
    }
    EventsOfBlocks3(x, y, z, [], [], [Write(BaseRegister(segment))], [Write(BaseRegister(segment))]);
  }

  /** THAT, THIS and ARG are restored first, in that order. */
  lemma RestoreThreeEffects()
    ensures var abc := RestoreRegister(1, "that") + RestoreRegister(2, "this") + RestoreRegister(3, "argument");
      Events(abc) == [Write(THAT), Write(THIS), Write(ARG)] && OpenEnded(abc)
  {
    assert [Write(THAT)] + [Write(THIS)] + [Write(ARG)] == [Write(THAT), Write(THIS), Write(ARG)];
    RestoreRegisterEffects(1, "that");
    RestoreRegisterEffects(2, "this");
    RestoreRegisterEffects(3, "argument");
    EventsOfBlocks3(RestoreRegister(1, "that"), RestoreRegister(2, "this"), RestoreRegister(3, "argument"),
                    [Write(THAT)], [Write(THIS)], [Write(ARG)], [Write(THAT), Write(THIS), Write(ARG)]);
  }

  lemma RestoreCallerFrameEffects()
    ensures Events(RestoreCallerFrame()) == [Write(THAT), Write(THIS), Write(ARG), Write(LCL)]
    ensures OpenEnded(RestoreCallerFrame())
  {
    assert [Write(THAT), Write(THIS), Write(ARG)] + [Write(LCL)] == [Write(THAT), Write(THIS), Write(ARG), Write(LCL)];
    var abc := RestoreRegister(1, "that") + RestoreRegister(2, "this") + RestoreRegister(3, "argument");
    RestoreThreeEffects();
    RestoreRegisterEffects(4, "local");
    EventsOfBlocks(abc, RestoreRegister(4, "local"), [Write(THAT), Write(THIS), Write(ARG)], [Write(LCL)],
                   [Write(THAT), Write(THIS), Write(ARG), Write(LCL)]);
  }

  lemma ReturnHeadEffects()
    ensures Events(SaveFrame() + SaveReturnAddress + PlaceReturnValue()) == [Read(LCL), Dec(SP), Read(ARG), Write(SP)]
    ensures OpenEnded(SaveFrame() + SaveReturnAddress + PlaceReturnValue())
  {
    assert [Read(LCL)] + [] + [Dec(SP), Read(ARG), Write(SP)] == [Read(LCL), Dec(SP), Read(ARG), Write(SP)];
    SaveFrameEffects();
    SaveReturnAddressEffects();
    PlaceReturnValueEffects();
    EventsOfBlocks3(SaveFrame(), SaveReturnAddress, PlaceReturnValue(), [Read(LCL)], [],
                    [Dec(SP), Read(ARG), Write(SP)], [Read(LCL), Dec(SP), Read(ARG), Write(SP)]);
  }

  /** The events of every return. */
  const ReturnEvents: seq<Event> :=
    [Read(LCL), Dec(SP), Read(ARG), Write(SP), Write(THAT), Write(THIS), Write(ARG), Write(LCL)]

  /**
    A return reads LCL to find the frame, pops exactly one value (the
    return value, stored at *ARG), moves SP to ARG + 1, then restores THAT,
    THIS, ARG and LCL in that order.
  */
  lemma ReturnCodeEffects()
    ensures Events(ReturnCode()) == ReturnEvents
  {
    assert [Read(LCL), Dec(SP), Read(ARG), Write(SP)] + [Write(THAT), Write(THIS), Write(ARG), Write(LCL)] + [] == ReturnEvents;
    var head := SaveFrame() + SaveReturnAddress + PlaceReturnValue();
    ReturnHeadEffects();
    RestoreCallerFrameEffects();
    Events3("@return", "A=M", "0;JMP");
    EventsOfBlocks3(head, RestoreCallerFrame(), JumpToReturn, [Read(LCL), Dec(SP), Read(ARG), Write(SP)],
                    [Write(THAT), Write(THIS), Write(ARG), Write(LCL)], [], ReturnEvents);
  }

  lemma ReturnEventsStackEffect(e: seq<Event>)
    requires e == ReturnEvents
    ensures StackEffect(e) == -1
  {
    var rest := [Read(ARG), Write(SP), Write(THAT), Write(THIS), Write(ARG), Write(LCL)];
    assert e == [Read(LCL)] + [Dec(SP)] + rest;
    StackEffectAppend([Read(LCL)], [Dec(SP)]);
    StackEffectSingle(Read(LCL));
    StackEffectSingle(Dec(SP));
    StackEffectAppend([Read(LCL)] + [Dec(SP)], rest);
  }

  /** A return shrinks the stack by exactly one word: the popped return value. */
  lemma ReturnCodeStackEffect()
    ensures StackEffect(Events(ReturnCode())) == -1
  {
    ReturnCodeEffects();
    ReturnEventsStackEffect(Events(ReturnCode()));
  }

  /** A return declares no label. */
  lemma ReturnCodeDeclares()
    ensures Declared(ReturnCode()) == []
  {
    RamCodeRegister("local");
    RamCodeRegister("argument");
    RamCodeRegister("this");
    RamCodeRegister("that");
    assert forall segment :: segment in SegmentsMapper ==> RamLine(segment)[0] == '@';
    assert forall k: nat :: ("@" + NatToString(k))[0] == '@';
    DeclaredNoneAll(ReturnCode());
  }

  // ------------------------------------------------------------- bootstrap

  /** SP = 256. */
  const BootstrapCode: seq<string> := ["@256", "D=A", "@SP", "M=D"]

  /** The bootstrap only sets SP, and declares nothing. */
  lemma BootstrapEffects()
    ensures Events(BootstrapCode) == [Write(SP)]
    ensures OpenEnded(BootstrapCode) && Declared(BootstrapCode) == []
  {
    assert Events(BootstrapCode) == [Write(SP)] by {
      assert BootstrapCode == ["@256", "D=A"] + ["@SP", "M=D"];
      Events2("@256", "D=A");
      Events2("@SP", "M=D");
      EventsAppend(["@256", "D=A"], ["@SP", "M=D"]);
    }
    assert Declared(BootstrapCode) == [] by {
      DeclaredNoneAll(BootstrapCode);
    }
  }

  // ------------------------------------------------------------ file names

  /** `os.path.basename`: what follows the last '/'. */
  function BaseName(path: string): (r: string)
    ensures '/' !in r && EndsWith(path, r)
    ensures r == path || (|r| < |path| && path[|path| - |r| - 1] == '/')
  {
    if path == [] || path[|path| - 1] == '/' then []
    else BaseName(path[..|path| - 1]) + [path[|path| - 1]]
  }

  /** A path without '/' is its own base name, as for `Foo.vm` or `Dir`. */
  lemma BaseNameWithoutSlash(path: string)
    requires '/' !in path
    ensures BaseName(path) == path
  {
  }

  /** `os.path.join` of two components. */
  function PathJoin(dir: string, name: string): string {
    if name != [] && name[0] == '/' then name
    else if dir == [] || dir[|dir| - 1] == '/' then dir + name
    else dir + "/" + name
  }

  /**
    The output file the writer opens for an input path. Whether the path is
    a directory is a question to the file system, so it is a parameter.
  */
  function OutputFilename(filepath: string, isDirectory: bool): Result<string, CodeError> {
    var outFilename :-
      if EndsWith(filepath, ".vm") then Success(Replace(filepath, ".vm", ".asm"))
      else if isDirectory then
        var baseDirName := BaseName(filepath);
        if baseDirName == [] then Failure(EmptyBaseName)
        else Success(PathJoin(filepath, baseDirName + ".asm"))
      else Success(filepath);
    if !EndsWith(outFilename, ".asm") then Failure(NotAsmOutput(filepath)) else Success(outFilename)
  }

  /** `set_filename`: the base name of a path with every ".vm" removed. */
  function FileStem(path: string): string {
    Replace(BaseName(path), ".vm", "")
  }

  lemma EndsWithAppend(p: string, suffix: string)
    ensures EndsWith(p + suffix, suffix)
  {
    assert (p + suffix)[|p|..] == suffix;
  }

  /** A ".vm" file is written next to itself, as ".asm". */
  lemma OutputFilenameOfVmFile(stem: string, isDirectory: bool)
    ensures OutputFilename(stem + ".vm", isDirectory) == Success(Replace(stem, ".vm", ".asm") + ".asm")
  {
    EndsWithAppend(stem, ".vm");
    ReplaceDotVmSuffix(stem, ".asm");
    EndsWithAppend(Replace(stem, ".vm", ".asm"), ".asm");
  }

  /** A directory `d` is written into `d/<base name of d>.asm`, refused when that base name is empty. */
  lemma OutputFilenameOfDirectory(filepath: string)
    requires !EndsWith(filepath, ".vm")
    ensures OutputFilename(filepath, true) ==
      if BaseName(filepath) == [] then Failure(EmptyBaseName)
      else Success(PathJoin(filepath, BaseName(filepath) + ".asm"))
  {
    var b := BaseName(filepath);
    if b != [] {
      var name := b + ".asm";
      EndsWithAppend(b, ".asm");
      assert name[0] != '/' by {
        assert name[0] == b[0] && b[0] in b;
      }
      var joined := PathJoin(filepath, name);
      if filepath == [] || filepath[|filepath| - 1] == '/' {
        EndsWithAppend(filepath, name);
      } else {
        EndsWithAppend(filepath + "/", name);
      }
      assert joined[|joined| - 4..] == name[|name| - 4..];
    }
  }

  /** Any other path is written as given, and must already end in ".asm". */
  lemma OutputFilenameOfOtherPath(filepath: string)
    requires !EndsWith(filepath, ".vm")
    ensures OutputFilename(filepath, false) ==
      if EndsWith(filepath, ".asm") then Success(filepath) else Failure(NotAsmOutput(filepath))
  {
  }

  /** Only a plain path that does not end in ".asm" is refused for its name. */
  lemma NotAsmOutputOnlyForPlainPaths(filepath: string, isDirectory: bool)
    ensures OutputFilename(filepath, isDirectory) == Failure(NotAsmOutput(filepath))
      <==> !EndsWith(filepath, ".vm") && !isDirectory && !EndsWith(filepath, ".asm")
  {
    if EndsWith(filepath, ".vm") {
      var stem := filepath[..|filepath| - 3];
      assert filepath == stem + ".vm";
      OutputFilenameOfVmFile(stem, isDirectory);
    } else if isDirectory {
      OutputFilenameOfDirectory(filepath);
    } else {
      OutputFilenameOfOtherPath(filepath);
    }
  }

  lemma {:induction false} BaseNameAfterSlash(dir: string, name: string)
    requires '/' !in name
    ensures BaseName(dir + "/" + name) == name
    decreases |name|
  {
    var p := dir + "/" + name;
    if name != [] {
      assert p[..|p| - 1] == dir + "/" + name[..|name| - 1];
      BaseNameAfterSlash(dir, name[..|name| - 1]);
      assert name[..|name| - 1] + [name[|name| - 1]] == name;
    }
  }

  /** The current file of `dir/Stem.vm` is `Stem` when the stem has no '.' or '/'. */
  lemma FileStemOfVmPath(dir: string, stem: string)
    requires '.' !in stem && '/' !in stem
    ensures FileStem(dir + "/" + stem + ".vm") == stem
  {
    assert dir + "/" + stem + ".vm" == dir + "/" + (stem + ".vm");
    BaseNameAfterSlash(dir, stem + ".vm");
    ReplaceDotVmSuffix(stem, "");
    ReplaceDotVmNoDot(stem, "");
  }

  /**
    Static variables are `File.i` symbols: two references to the static
    segment share a symbol exactly when file and index agree, so files do not
    share statics.
  */
  lemma StaticSymbolsDistinct(f1: string, i1: nat, f2: string, i2: nat)
    ensures SegmentCode("static", Some(i1), Some(f1)) == SegmentCode("static", Some(i2), Some(f2))
      <==> f1 == f2 && i1 == i2
  {
    var n1 := NatToString(i1);
    var n2 := NatToString(i2);
    assert '.' !in n1 by { assert forall k :: 0 <= k < |n1| ==> IsDigit(n1[k]); }
    assert '.' !in n2 by { assert forall k :: 0 <= k < |n2| ==> IsDigit(n2[k]); }
    ScopedLabelInjective(f1, n1, f2, n2);
    NatToStringInjective(i1, i2);
    StaticCode(f1, i1);
    StaticCode(f2, i2);
    AtInjective(ScopedLabel(Some(f1), n1), ScopedLabel(Some(f2), n2));
  }

  /** A static reference is one A-instruction naming `File.i`. */
  lemma StaticCode(f: string, i: nat)
    ensures SegmentCode("static", Some(i), Some(f)) == Success(["@" + ScopedLabel(Some(f), NatToString(i))])
  {
    assert "@" + f + "." + NatToString(i) == "@" + (f + "." + NatToString(i));
  }

  lemma AtInjective(a: string, b: string)
    ensures ["@" + a] == ["@" + b] <==> a == b
  {
    if ["@" + a] == ["@" + b] {
      assert ("@" + a)[1..] == a;
      assert ("@" + b)[1..] == b;
    }
  }

}
