/**
  A vocabulary for stating what a Hack assembly listing does without running
  it: which pointer registers (SP, LCL, ARG, THIS, THAT) each instruction pair
  touches and how, which labels the listing declares, and the 16-bit word
  arithmetic of the few instructions the pop sequence relies on.
*/
module Listing {
  import opened Wrappers
  import opened Text

  // ------------------------------------------------------- listing walks

  /**
    `f` applied to each line of `lines` from position `i` on, the results
    concatenated. The recursion walks an index over a fixed sequence rather
    than slicing it, and `f` stays abstract in the lemmas below.
  */
  function EachFrom<T, U>(f: T -> seq<U>, lines: seq<T>, i: nat): seq<U>
    decreases |lines| - i
  {
    if i < |lines| then f(lines[i]) + EachFrom(f, lines, i + 1) else []
  }

  /** `f` applied to each pair of neighbouring lines from position `i` on, the results concatenated. */
  function PairsFrom<T, U>(f: (T, T) -> seq<U>, lines: seq<T>, i: nat): seq<U>
    decreases |lines| - i
  {
    if i + 1 < |lines| then f(lines[i], lines[i + 1]) + PairsFrom(f, lines, i + 1) else []
  }

  /** Behind a prefix `a`, the lines of `a + b` are those of `b`. */
  lemma {:induction false} EachFromShift<T, U>(f: T -> seq<U>, a: seq<T>, b: seq<T>, j: nat)
    ensures EachFrom(f, a + b, |a| + j) == EachFrom(f, b, j)
    decreases |b| - j
  {
    if j < |b| {
      assert (a + b)[|a| + j] == b[j];
      EachFromShift(f, a, b, j + 1);
    }
  }

  lemma {:induction false} EachFromAppend<T, U>(f: T -> seq<U>, a: seq<T>, b: seq<T>, i: nat)
    requires i <= |a|
    ensures EachFrom(f, a + b, i) == EachFrom(f, a, i) + EachFrom(f, b, 0)
    decreases |a| - i
  {
    if i < |a| {
      assert (a + b)[i] == a[i];
      EachFromAppend(f, a, b, i + 1);
    } else {
      EachFromShift(f, a, b, 0);
    }
  }

  lemma {:induction false} EachFromNone<T, U>(f: T -> seq<U>, lines: seq<T>, i: nat)
    requires forall k :: 0 <= k < |lines| ==> f(lines[k]) == []
    ensures EachFrom(f, lines, i) == []
    decreases |lines| - i
  {
    if i < |lines| {
      EachFromNone(f, lines, i + 1);
    }
  }

  /** Behind a prefix `a`, the pairs of `a + b` are those of `b`. */
  lemma {:induction false} PairsFromShift<T, U>(f: (T, T) -> seq<U>, a: seq<T>, b: seq<T>, j: nat)
    ensures PairsFrom(f, a + b, |a| + j) == PairsFrom(f, b, j)
    decreases |b| - j
  {
    if j + 1 < |b| {
      assert (a + b)[|a| + j] == b[j] && (a + b)[|a| + j + 1] == b[j + 1];
      PairsFromShift(f, a, b, j + 1);
    }
  }

  /**
    The pairs of `a + b` are those of `a`, then the pair across the seam,
    then those of `b`: when the pair across the seam contributes nothing,
    the walk splits at the seam.
  */
  lemma {:induction false} PairsFromAppend<T, U>(f: (T, T) -> seq<U>, a: seq<T>, b: seq<T>, i: nat)
    requires i <= |a|
    requires a != [] && b != [] ==> f(a[|a| - 1], b[0]) == []
    ensures PairsFrom(f, a + b, i) == PairsFrom(f, a, i) + PairsFrom(f, b, 0)
    decreases |a| - i
  {
    if i + 1 < |a| {
      assert (a + b)[i] == a[i] && (a + b)[i + 1] == a[i + 1];
      PairsFromAppend(f, a, b, i + 1);
    } else {
      PairsFromShift(f, a, b, 0);
      if i + 1 == |a| && b != [] {
        assert (a + b)[i] == a[|a| - 1] && (a + b)[i + 1] == b[0];
      }
    }
  }

  // ------------------------------------------------------------ registers

  /** The pointer registers of the VM mapping, at RAM[0..4]. */
  datatype Register = SP | LCL | ARG | THIS | THAT

  function RegisterName(r: Register): string {
    match r
    case SP => "SP"
    case LCL => "LCL"
    case ARG => "ARG"
    case THIS => "THIS"
    case THAT => "THAT"
  }

  /** The register an A-instruction selects by its symbol, if any. */
  function RegisterOf(line: string): (r: Option<Register>)
    ensures r.Some? ==> line == "@" + RegisterName(r.value)
  {
    if line == "@SP" then Some(SP)
    else if line == "@LCL" then Some(LCL)
    else if line == "@ARG" then Some(ARG)
    else if line == "@THIS" then Some(THIS)
    else if line == "@THAT" then Some(THAT)
    else None
  }

  /** Selecting a register by name is selecting it by its symbol. */
  lemma RegisterOfName(r: Register)
    ensures RegisterOf("@" + RegisterName(r)) == Some(r)
  {
    match r
    case SP => assert "@" + RegisterName(r) == "@SP";
    case LCL => assert "@" + RegisterName(r) == "@LCL";
    case ARG => assert "@" + RegisterName(r) == "@ARG";
    case THIS => assert "@" + RegisterName(r) == "@THIS";
    case THAT => assert "@" + RegisterName(r) == "@THAT";
  }

  /** An A-instruction whose operand holds anything but a capital letter selects no register. */
  lemma NotRegisterSymbol(s: string, i: int)
    requires 0 <= i < |s| && !('A' <= s[i] <= 'Z')
    ensures RegisterOf("@" + s).None?
  {
    var t := "@" + s;
    assert t[i + 1] == s[i];
    assert t != "@SP" && t != "@LCL" && t != "@ARG" && t != "@THIS" && t != "@THAT";
  }

  // --------------------------------------------------------------- events

  /**
    What an instruction does to the register the previous A-instruction
    selected: increments or decrements it, reads it into D or A, or
    overwrites it with D.
  */
  datatype Event = Inc(r: Register) | Dec(r: Register) | Read(r: Register) | Write(r: Register)

  function EventOf(r: Register, instr: string): seq<Event> {
    if instr == "AM=M+1" || instr == "M=M+1" then [Inc(r)]
    else if instr == "AM=M-1" || instr == "M=M-1" then [Dec(r)]
    else if instr == "D=M" || instr == "A=M" then [Read(r)]
    else if instr == "M=D" then [Write(r)]
    else []
  }

  function EventAt(selector: string, instr: string): seq<Event> {
    match RegisterOf(selector)
    case None => []
    case Some(r) => EventOf(r, instr)
  }

  /** The register events of a listing, in program order. */
  function Events(lines: seq<string>): seq<Event> {
    PairsFrom(EventAt, lines, 0)
  }

  /** A listing that does not end by selecting a register can be analysed piecewise. */
  predicate OpenEnded(lines: seq<string>) {
    lines == [] || RegisterOf(lines[|lines| - 1]).None?
  }

  lemma EventsAppend(a: seq<string>, b: seq<string>)
    requires OpenEnded(a)
    ensures Events(a + b) == Events(a) + Events(b)
  {
    PairsFromAppend(EventAt, a, b, 0);
  }

  /** Unfolds the event list by one instruction pair. */
  lemma EventsCons(x: string, y: string, rest: seq<string>)
    ensures Events([x, y] + rest) == EventAt(x, y) + Events([y] + rest)
  {
    assert [x, y] + rest == [x] + ([y] + rest);
    PairsFromShift(EventAt, [x], [y] + rest, 0);
  }

  lemma Events2(x: string, y: string)
    ensures Events([x, y]) == EventAt(x, y)
  {
    assert PairsFrom(EventAt, [x, y], 1) == [];
  }

  lemma Events3(x: string, y: string, z: string)
    ensures Events([x, y, z]) == EventAt(x, y) + EventAt(y, z)
  {
    assert PairsFrom(EventAt, [x, y, z], 2) == [];
    assert PairsFrom(EventAt, [x, y, z], 1) == EventAt(y, z);
  }

  lemma Events4(w: string, x: string, y: string, z: string)
    ensures Events([w, x, y, z]) == EventAt(w, x) + EventAt(x, y) + EventAt(y, z)
  {
    assert PairsFrom(EventAt, [w, x, y, z], 3) == [];
    assert PairsFrom(EventAt, [w, x, y, z], 2) == EventAt(y, z);
    assert PairsFrom(EventAt, [w, x, y, z], 1) == EventAt(x, y) + EventAt(y, z);
  }

  lemma OpenEndedAppend(a: seq<string>, b: seq<string>)
    requires OpenEnded(a) && OpenEnded(b)
    ensures OpenEnded(a + b)
  {
    if b != [] {
      assert (a + b)[|a + b| - 1] == b[|b| - 1];
    } else {
      assert a + b == a;
    }
  }

  /** A label declaration never selects a register. */
  lemma ParenNotRegister(name: string)
    ensures RegisterOf("(" + name + ")").None?
  {
    var t := "(" + name + ")";
    assert t[0] == '(';
  }

  /** Events over three open-ended pieces. */
  lemma EventsAppend3(a: seq<string>, b: seq<string>, c: seq<string>)
    requires OpenEnded(a) && OpenEnded(b)
    ensures Events(a + b + c) == Events(a) + Events(b) + Events(c)
  {
    EventsAppend(a, b);
    if b != [] {
      assert (a + b)[|a + b| - 1] == b[|b| - 1];
    } else {
      assert a + b == a;
    }
    EventsAppend(a + b, c);
  }

  /**
    Events of two blocks, given each block's events: stating the resulting
    lists up front keeps the solver from unfolding literal listings.
  */
  lemma EventsOfBlocks(x: seq<string>, y: seq<string>, ex: seq<Event>, ey: seq<Event>, e: seq<Event>)
    requires OpenEnded(x) && Events(x) == ex && Events(y) == ey && ex + ey == e
    ensures Events(x + y) == e
    ensures OpenEnded(y) ==> OpenEnded(x + y)
  {
    EventsAppend(x, y);
    if OpenEnded(y) {
      OpenEndedAppend(x, y);
    }
  }

  /** Events of three blocks, given each block's events. */
  lemma EventsOfBlocks3(x: seq<string>, y: seq<string>, z: seq<string>,
                        ex: seq<Event>, ey: seq<Event>, ez: seq<Event>, e: seq<Event>)
    requires OpenEnded(x) && OpenEnded(y)
    requires Events(x) == ex && Events(y) == ey && Events(z) == ez && ex + ey + ez == e
    ensures Events(x + y + z) == e
    ensures OpenEnded(z) ==> OpenEnded(x + y + z)
  {
    EventsAppend3(x, y, z);
    if OpenEnded(z) {
      OpenEndedAppend(x, y);
      OpenEndedAppend(x + y, z);
    }
  }

  function Count(events: seq<Event>, e: Event): nat {
    if events == [] then 0 else (if events[0] == e then 1 else 0) + Count(events[1..], e)
  }

  /** The net change a listing makes to SP by increments and decrements. */
  function StackEffect(events: seq<Event>): int {
    Count(events, Inc(SP)) as int - Count(events, Dec(SP)) as int
  }

  lemma {:induction false} CountAppend(a: seq<Event>, b: seq<Event>, e: Event)
    ensures Count(a + b, e) == Count(a, e) + Count(b, e)
    decreases |a|
  {
    if a == [] {
      assert a + b == b;
    } else {
      assert (a + b)[1..] == a[1..] + b;
      CountAppend(a[1..], b, e);
    }
  }

  lemma StackEffectSingle(e: Event)
    ensures StackEffect([e]) == if e == Inc(SP) then 1 else if e == Dec(SP) then -1 else 0
  {
    assert [e][1..] == [];
    assert Count([e], Inc(SP)) == (if e == Inc(SP) then 1 else 0) + Count([], Inc(SP));
    assert Count([e], Dec(SP)) == (if e == Dec(SP) then 1 else 0) + Count([], Dec(SP));
  }

  lemma StackEffectAppend(a: seq<Event>, b: seq<Event>)
    ensures StackEffect(a + b) == StackEffect(a) + StackEffect(b)
  {
    CountAppend(a, b, Inc(SP));
    CountAppend(a, b, Dec(SP));
  }

  // --------------------------------------------------------------- labels

  /** A label declaration `(X)`. */
  predicate IsLabelLine(line: string) {
    |line| >= 2 && line[0] == '(' && line[|line| - 1] == ')'
  }

  /** The label a line declares, if it is a declaration. */
  function LabelOf(line: string): (r: seq<string>)
    ensures |r| <= 1
  {
    if IsLabelLine(line) then [line[1..|line| - 1]] else []
  }

  /** The labels a listing declares, in order. */
  function Declared(lines: seq<string>): seq<string> {
    EachFrom(LabelOf, lines, 0)
  }

  lemma DeclaredAppend(a: seq<string>, b: seq<string>)
    ensures Declared(a + b) == Declared(a) + Declared(b)
  {
    EachFromAppend(LabelOf, a, b, 0);
  }

  /** The declaration line of a label declares exactly that label. */
  lemma DeclaredLabelLine(name: string)
    ensures Declared(["(" + name + ")"]) == [name]
  {
    var line := "(" + name + ")";
    assert line[1..|line| - 1] == name;
    assert EachFrom(LabelOf, [line], 1) == [];
  }

  /** A line that starts with neither `(` declares nothing. */
  lemma DeclaredNone(line: string)
    requires line == [] || line[0] != '('
    ensures Declared([line]) == []
  {
    assert EachFrom(LabelOf, [line], 1) == [];
  }

  /** A listing without a line that starts with `(` declares nothing. */
  lemma DeclaredNoneAll(lines: seq<string>)
    requires forall i :: 0 <= i < |lines| ==> lines[i] == [] || lines[i][0] != '('
    ensures Declared(lines) == []
  {
    forall i | 0 <= i < |lines|
      ensures LabelOf(lines[i]) == []
    {
    }
    EachFromNone(LabelOf, lines, 0);
  }

  // ------------------------------------------------------- word arithmetic

  /** Hack words are 16 bits wide; arithmetic wraps modulo 2^16. */
  const WordCount: int := 65536

  function Wrap(x: int): (w: int)
    ensures 0 <= w < WordCount
  {
    x % WordCount
  }

  /** Adding then subtracting either addend gives the other back, modulo 2^16. */
  lemma WrapSumIdentity(a: int, v: int)
    requires 0 <= a < WordCount && 0 <= v < WordCount
    ensures Wrap(Wrap(a + v) - v) == a
    ensures Wrap(Wrap(a + v) - a) == v
  {
    if a + v >= WordCount {
      assert Wrap(a + v) == a + v - WordCount;
    } else {
      assert Wrap(a + v) == a + v;
    }
  }

  /** The register file and memory of a Hack machine, as far as the pop sequence uses them. */
  datatype Machine = Machine(a: int, d: int, ram: map<int, int>)

  /**
    One instruction of the subset the pop sequence uses. Memory at an
    address outside `ram`, or an instruction outside the subset, stops the
    run.
  */
  function Exec(instr: string, m: Machine): Option<Machine> {
    if RegisterOf(instr).Some? then
      Some(m.(a := match RegisterOf(instr).value
                   case SP => 0 case LCL => 1 case ARG => 2 case THIS => 3 case THAT => 4))
    else if instr == "D=A" then Some(m.(d := m.a))
    else if m.a !in m.ram then None
    else
      var mem := m.ram[m.a];
      if instr == "AM=M-1" then
        var w := Wrap(mem - 1);
        Some(m.(a := w, ram := m.ram[m.a := w]))
      else if instr == "D=D+M" then Some(m.(d := Wrap(m.d + mem)))
      else if instr == "A=D-M" then Some(m.(a := Wrap(m.d - mem)))
      else if instr == "D=D-A" then Some(m.(d := Wrap(m.d - m.a)))
      else if instr == "M=D" then Some(m.(ram := m.ram[m.a := m.d]))
      else None
  }

  function Run(lines: seq<string>, m: Machine): Option<Machine>
    decreases |lines|
  {
    if lines == [] then Some(m)
    else
      match Exec(lines[0], m)
      case None => None
      case Some(m') => Run(lines[1..], m')
  }
}
