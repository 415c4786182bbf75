/**
 * Day 24, Arithmetic Logic Unit: a four-register machine (`w`, `x`, `y`,
 * `z`) runs a program of `inp`, `add`, `mul`, `div`, `mod` and `eql`
 * instructions on 64-bit signed integers. The puzzle input checks a
 * fourteen-digit model number, one `inp` per digit; the solver runs the
 * program chunk by chunk, between `inp`s, keeping for every value of `z`
 * only the smallest prefix of digits that reaches it, and reports the
 * smallest model number that ends with `z` zero.
 */
module ArithmeticLogicUnit {
  import opened Options
  import opened Text

  // ---------------------------------------------------------------------
  // Instructions
  // ---------------------------------------------------------------------

  datatype Operation = Inp | Mul | Add | Mod | Div | Eql

  datatype Register = W | X | Y | Z

  /** The operand of an instruction: a number, or a register to read. */
  datatype Source = Immediate(value: int) | Named(register: Register)

  /** `src` is missing for `inp`, which the program fills in from the inputs. */
  datatype Insn = Insn(op: Operation, dst: Register, src: Option<Source>)

  function Mnemonic(op: Operation): string
  {
    match op
    case Inp => "inp"
    case Mul => "mul"
    case Add => "add"
    case Mod => "mod"
    case Div => "div"
    case Eql => "eql"
  }

  function Name(reg: Register): string
  {
    match reg
    case W => "w"
    case X => "x"
    case Y => "y"
    case Z => "z"
  }

  /** `Operation::from`: the six mnemonics; `None` is the `unreachable!()` panic. */
  function OperationFrom(text: string): (r: Option<Operation>)
    ensures forall op :: r == Some(op) <==> text == Mnemonic(op)
  {
    match text
    case "inp" => Some(Inp)
    case "mul" => Some(Mul)
    case "add" => Some(Add)
    case "mod" => Some(Mod)
    case "div" => Some(Div)
    case "eql" => Some(Eql)
    case _ => None
  }

  /** `Register::from`: the four names; `None` is the `unreachable!()` panic. */
  function RegisterFrom(text: string): (r: Option<Register>)
    ensures forall reg :: r == Some(reg) <==> text == Name(reg)
  {
    match text
    case "w" => Some(W)
    case "x" => Some(X)
    case "y" => Some(Y)
    case "z" => Some(Z)
    case _ => None
  }

  /**
   * `Source::from`: a register name reads that register; anything else
   * must parse as an `isize`, or the `unwrap` panics (`None`).
   */
  function SourceFrom(text: string): (r: Option<Source>)
    ensures forall reg :: r == Some(Named(reg)) <==> text == Name(reg)
    ensures RegisterFrom(text).None? ==>
      r == match ParseSigned(text, I64Min, I64End) case Some(v) => Some(Immediate(v)) case None => None
  {
    match RegisterFrom(text)
    case Some(reg) => Some(Named(reg))
    case None =>
      match ParseSigned(text, I64Min, I64End)
      case Some(v) => Some(Immediate(v))
      case None => None
  }

  /** How a line of the program reads: an instruction, a line without a space, or a panic. */
  datatype Reading = Parsed(insn: Insn) | Dropped | Panics

  /** One line of `parse`'s `filter_map`. */
  function ParseLine(line: string): (r: Reading)
    ensures Find(line, " ").None? ==> r == Dropped
  {
    match SplitOnce(line, " ")
    case None => Dropped
    case Some((op, rest)) =>
      match OperationFrom(op)
      case None => Panics
      case Some(operation) =>
        match SplitOnce(rest, " ")
        case Some((dst, src)) =>
          (match (RegisterFrom(dst), SourceFrom(src))
           case (Some(reg), Some(source)) => Parsed(Insn(operation, reg, Some(source)))
           case _ => Panics)
        case None =>
          match RegisterFrom(rest)
          case Some(reg) => Parsed(Insn(operation, reg, None))
          case None => Panics
  }

  /** `parse`: the instructions of the lines that have a space; `None` if any line panics. */
  function Parse(lines: seq<string>): (r: Option<seq<Insn>>)
    ensures r.Some? ==> |r.value| <= |lines|
  {
    if lines == [] then Some([])
    else
      match (ParseLine(lines[0]), Parse(lines[1..]))
      case (Panics, _) => None
      case (_, None) => None
      case (Dropped, Some(rest)) => Some(rest)
      case (Parsed(insn), Some(rest)) => Some([insn] + rest)
  }

  // ---------------------------------------------------------------------
  // Writing instructions back
  // ---------------------------------------------------------------------

  function ShowInt(n: int): string
  {
    if n < 0 then "-" + Digits(-n) else Digits(n)
  }

  function ShowSource(src: Source): string
  {
    match src
    case Immediate(v) => ShowInt(v)
    case Named(reg) => Name(reg)
  }

  /** The line an instruction is written as in the puzzle input. */
  function ShowInsn(insn: Insn): string
  {
    Mnemonic(insn.op) + " " + (Name(insn.dst) + match insn.src case None => "" case Some(src) => " " + ShowSource(src))
  }

  /** An instruction whose number fits an `isize`. */
  predicate Printable(insn: Insn)
  {
    insn.src.Some? && insn.src.value.Immediate? ==> I64Min <= insn.src.value.value < I64End
  }

  lemma ShowIntChars(n: int)
    ensures ' ' !in ShowInt(n) && RegisterFrom(ShowInt(n)).None?
  {
    var s := ShowInt(n);
    var digits := if n < 0 then Digits(-n) else Digits(n);
    assert forall i :: 0 <= i < |digits| ==> IsDigit(digits[i]);
    if n < 0 {
      assert forall i :: 1 <= i < |s| ==> s[i] == digits[i - 1];
    }
  }

  lemma NamesAndMnemonics(op: Operation, reg: Register)
    ensures ' ' !in Mnemonic(op) && ' ' !in Name(reg)
  {
  }

  lemma SourceOfShow(src: Source)
    requires src.Immediate? ==> I64Min <= src.value < I64End
    ensures ' ' !in ShowSource(src) && SourceFrom(ShowSource(src)) == Some(src)
  {
    if src.Immediate? {
      ShowIntChars(src.value);
      ParseSignedDigits(src.value, I64Min, I64End);
    }
  }

  /** Every instruction the puzzle can hold is read back from its line. */
  lemma ParseShowLine(insn: Insn)
    requires Printable(insn)
    ensures ParseLine(ShowInsn(insn)) == Parsed(insn)
  {
    var op, dst := Mnemonic(insn.op), Name(insn.dst);
    NamesAndMnemonics(insn.op, insn.dst);
    var tail := match insn.src case None => "" case Some(src) => " " + ShowSource(src);
    assert ShowInsn(insn) == op + [' '] + (dst + tail);
    SplitOnceChar(op, ' ', dst + tail);
    match insn.src {
      case None =>
        FindNoChar(dst, ' ');
        assert dst + tail == dst;
      case Some(src) =>
        SourceOfShow(src);
        assert dst + tail == dst + [' '] + ShowSource(src);
        SplitOnceChar(dst, ' ', ShowSource(src));
    }
  }

  /** A program written out, one line per instruction. */
  function ShowProgram(insns: seq<Insn>): (lines: seq<string>)
    ensures |lines| == |insns|
  {
    if insns == [] then [] else [ShowInsn(insns[0])] + ShowProgram(insns[1..])
  }

  /** A program written out line by line parses back to itself. */
  lemma {:induction false} ParseShown(insns: seq<Insn>)
    requires forall i :: 0 <= i < |insns| ==> Printable(insns[i])
    ensures Parse(ShowProgram(insns)) == Some(insns)
  {
    if insns != [] {
      var lines := ShowProgram(insns);
      ParseShowLine(insns[0]);
      ParseShown(insns[1..]);
      assert lines[0] == ShowInsn(insns[0]);
      assert lines[1..] == ShowProgram(insns[1..]);
      assert [insns[0]] + insns[1..] == insns;
    }
  }

  // ---------------------------------------------------------------------
  // Arithmetic on `isize`
  // ---------------------------------------------------------------------

  /** The values of an `isize` (a 64-bit target). */
  predicate InRange(n: int)
  {
    I64Min <= n < I64End
  }

  function Abs(n: int): nat
  {
    if n < 0 then -n else n
  }

  /** Rust's `/`: the quotient rounded toward zero. */
  function TruncDiv(a: int, b: int): int
    requires b != 0
  {
    if (a < 0) == (b < 0) then Abs(a) / Abs(b) else -(Abs(a) / Abs(b))
  }

  /** Rust's `%`: the remainder takes the sign of the dividend. */
  function TruncMod(a: int, b: int): int
    requires b != 0
  {
    if a < 0 then -(Abs(a) % Abs(b)) else Abs(a) % Abs(b)
  }

  /** Quotient and remainder split the dividend, with the remainder smaller than the divisor and of the dividend's sign. */
  lemma TruncDivMod(a: int, b: int)
    requires b != 0
    ensures a == TruncDiv(a, b) * b + TruncMod(a, b)
    ensures Abs(TruncMod(a, b)) < Abs(b)
    ensures a >= 0 ==> TruncMod(a, b) >= 0
    ensures a <= 0 ==> TruncMod(a, b) <= 0
  {
    TruncEquation(a, b);
  }

  lemma TruncEquation(a: int, b: int)
    requires b != 0
    ensures a == TruncDiv(a, b) * b + TruncMod(a, b)
  {
    var n, m := Abs(a), Abs(b);
    var q, r := n / m, n % m;
    assert n == q * m + r;
    Signs(q, m);
    var p := q * m;
    if (a < 0) == (b < 0) {
      assert TruncDiv(a, b) == q;
      assert q * b == if b < 0 then -p else p;
    } else {
      assert TruncDiv(a, b) == -q;
      assert (-q) * b == if b < 0 then p else -p;
    }
  }

  lemma Signs(q: int, m: int)
    ensures q * (-m) == -(q * m) && (-q) * m == -(q * m) && (-q) * (-m) == q * m
  {
  }

  /** On a non-negative dividend and a positive divisor Rust's operators agree with floor division. */
  lemma TruncNatural(a: nat, b: int)
    requires b > 0
    ensures TruncDiv(a, b) == a / b && TruncMod(a, b) == a % b
  {
  }

  // ---------------------------------------------------------------------
  // Registers and one instruction
  // ---------------------------------------------------------------------

  datatype Registers = Registers(w: int, x: int, y: int, z: int)

  function Read(regs: Registers, reg: Register): int
  {
    match reg
    case W => regs.w
    case X => regs.x
    case Y => regs.y
    case Z => regs.z
  }

  /** Writing a register changes that register only, and it then reads back the value written. */
  function Write(regs: Registers, reg: Register, val: int): (r: Registers)
    ensures Read(r, reg) == val
    ensures forall other :: other != reg ==> Read(r, other) == Read(regs, other)
  {
    match reg
    case W => regs.(w := val)
    case X => regs.(x := val)
    case Y => regs.(y := val)
    case Z => regs.(z := val)
  }

  /** Two register files that read the same everywhere are the same. */
  lemma SameRegisters(a: Registers, b: Registers)
    requires forall reg :: Read(a, reg) == Read(b, reg)
    ensures a == b
  {
    assert Read(a, W) == Read(b, W) && Read(a, X) == Read(b, X);
    assert Read(a, Y) == Read(b, Y) && Read(a, Z) == Read(b, Z);
  }

  function SourceValue(regs: Registers, src: Source): int
  {
    match src
    case Immediate(v) => v
    case Named(reg) => Read(regs, reg)
  }

  /**
   * The value an operation writes into its destination, from the
   * destination's value `d` and the operand's value `v`; `None` where
   * Rust panics before any overflow check: a zero divisor, and
   * `isize::MIN % -1`.
   */
  function Compute(op: Operation, d: int, v: int): (r: Option<int>)
    ensures op == Div ==> (r.Some? <==> v != 0)
    ensures op == Mod ==> (r.Some? <==> v != 0 && !(d == I64Min && v == -1))
    ensures op != Div && op != Mod ==> r.Some?
    ensures r.Some? && op == Div ==> d == r.value * v + TruncMod(d, v) && Abs(TruncMod(d, v)) < Abs(v)
    ensures r.Some? && op == Mod ==> TruncDiv(d, v) * v + r.value == d && Abs(r.value) < Abs(v)
    ensures r.Some? && op == Eql ==> (r.value == 1 <==> d == v) && (r.value == 0 <==> d != v)
  {
    match op
    case Inp => Some(v)
    case Mul => Some(d * v)
    case Add => Some(d + v)
    case Mod =>
      if v == 0 || (d == I64Min && v == -1) then None
      else TruncDivMod(d, v); Some(TruncMod(d, v))
    case Div =>
      if v == 0 then None
      else TruncDivMod(d, v); Some(TruncDiv(d, v))
    case Eql => Some(if d == v then 1 else 0)
  }

  /**
   * `ALU::run` on a register file: `None` where the source panics (an
   * instruction without an operand, a zero divisor, or a result that
   * overflows an `isize`, which a debug build checks).
   */
  function Exec(regs: Registers, insn: Insn): (r: Option<Registers>)
    ensures insn.src.None? ==> r.None?
    ensures insn.src.Some? ==>
      (r.Some? <==>
       var value := Compute(insn.op, Read(regs, insn.dst), SourceValue(regs, insn.src.value));
       value.Some? && InRange(value.value))
    ensures r.Some? ==>
      Read(r.value, insn.dst) == Compute(insn.op, Read(regs, insn.dst), SourceValue(regs, insn.src.value)).value &&
      forall other :: other != insn.dst ==> Read(r.value, other) == Read(regs, other)
  {
    match insn.src
    case None => None
    case Some(src) =>
      match Compute(insn.op, Read(regs, insn.dst), SourceValue(regs, src))
      case None => None
      case Some(value) => if InRange(value) then Some(Write(regs, insn.dst, value)) else None
  }

  /** Running instructions one after the other; `None` as soon as one panics. */
  function Execute(regs: Registers, insns: seq<Insn>): Option<Registers>
    decreases insns
  {
    if insns == [] then Some(regs)
    else
      match Exec(regs, insns[0])
      case None => None
      case Some(next) => Execute(next, insns[1..])
  }

  /** Running two programs one after the other is running their concatenation. */
  lemma {:induction false} ExecuteAppend(regs: Registers, a: seq<Insn>, b: seq<Insn>)
    ensures Execute(regs, a + b) ==
            match Execute(regs, a) case None => None case Some(mid) => Execute(mid, b)
    decreases a
  {
    if a == [] {
      assert a + b == b;
    } else {
      assert (a + b)[0] == a[0] && (a + b)[1..] == a[1..] + b;
      match Exec(regs, a[0]) {
        case None =>
        case Some(next) => ExecuteAppend(next, a[1..], b);
      }
    }
  }

  // ---------------------------------------------------------------------
  // The ALU
  // ---------------------------------------------------------------------

  class ALU {
    var w: int
    var x: int
    var y: int
    var z: int

    /** `ALU::new`: all registers zero. */
    constructor ()
      ensures State() == Registers(0, 0, 0, 0)
    {
      w, x, y, z := 0, 0, 0, 0;
    }

    /** The struct literal `ALU { w, x, y, z }`. */
    constructor Load(regs: Registers)
      ensures State() == regs
    {
      w, x, y, z := regs.w, regs.x, regs.y, regs.z;
    }

    function State(): Registers
      reads this
    {
      Registers(w, x, y, z)
    }

    function Get(reg: Register): (v: int)
      reads this
      ensures v == Read(State(), reg)
    {
      match reg
      case W => w
      case X => x
      case Y => y
      case Z => z
    }

    method Set(reg: Register, val: int)
      modifies this
      ensures State() == Write(old(State()), reg, val)
    {
      match reg {
        case W => w := val;
        case X => x := val;
        case Y => y := val;
        case Z => z := val;
      }
    }

    function GetSourceVal(src: Source): (v: int)
      reads this
      ensures v == SourceValue(State(), src)
    {
      match src
      case Immediate(val) => val
      case Named(reg) => Get(reg)
    }

    /** `ALU::run`, for an instruction that does not panic. */
    method Run(insn: Insn)
      requires Exec(State(), insn).Some?
      modifies this
      ensures State() == Exec(old(State()), insn).value
    {
      var srcVal := GetSourceVal(insn.src.value);
      var dstVal := Get(insn.dst);
      match insn.op {
        case Inp => Set(insn.dst, srcVal);
        case Mul => Set(insn.dst, dstVal * srcVal);
        case Add => Set(insn.dst, dstVal + srcVal);
        case Mod => Set(insn.dst, TruncMod(dstVal, srcVal));
        case Div => Set(insn.dst, TruncDiv(dstVal, srcVal));
        case Eql => Set(insn.dst, if dstVal == srcVal then 1 else 0);
      }
    }
  }

  // ---------------------------------------------------------------------
  // Programs with inputs
  // ---------------------------------------------------------------------

  /** The number of `inp` instructions. */
  function Inputs(insns: seq<Insn>): nat
  {
    if insns == [] then 0
    else Inputs(insns[..|insns| - 1]) + (if insns[|insns| - 1].op == Inp then 1 else 0)
  }

  /** An instruction with its input filled in, once `k` inputs have been taken. */
  function Fill(insn: Insn, inputs: seq<int>, k: nat): Insn
    requires insn.op == Inp ==> k < |inputs|
  {
    if insn.op == Inp then Insn(Inp, insn.dst, Some(Immediate(inputs[k]))) else insn
  }

  /** `run_program`'s `map`: the k-th `inp` reads the k-th input. */
  function Feed(insns: seq<Insn>, inputs: seq<int>): (fed: seq<Insn>)
    requires Inputs(insns) <= |inputs|
    ensures |fed| == |insns|
  {
    if insns == [] then []
    else
      var front := insns[..|insns| - 1];
      Feed(front, inputs) + [Fill(insns[|insns| - 1], inputs, Inputs(front))]
  }

  lemma {:induction false} InputsPrefix(insns: seq<Insn>, i: nat)
    requires i <= |insns|
    ensures Inputs(insns[..i]) <= Inputs(insns)
    decreases |insns|
  {
    if i < |insns| {
      InputsPrefix(insns[..|insns| - 1], i);
      assert insns[..|insns| - 1][..i] == insns[..i];
    } else {
      assert insns[..i] == insns;
    }
  }

  /** Fed instruction `i` is instruction `i`, an `inp` reading the input numbered by the `inp`s before it. */
  lemma {:induction false} FeedAt(insns: seq<Insn>, inputs: seq<int>, i: nat)
    requires Inputs(insns) <= |inputs| && i < |insns|
    ensures Inputs(insns[..i]) + (if insns[i].op == Inp then 1 else 0) <= |inputs|
    ensures Feed(insns, inputs)[i] == Fill(insns[i], inputs, Inputs(insns[..i]))
    decreases |insns|
  {
    var front := insns[..|insns| - 1];
    assert insns[..i + 1][..i] == insns[..i];
    InputsPrefix(insns, i + 1);
    if i < |insns| - 1 {
      assert front[..i] == insns[..i] && front[i] == insns[i];
      FeedAt(front, inputs, i);
    } else {
      assert front == insns[..i];
    }
  }

  /** An instruction list with no `inp` is fed unchanged, whatever the inputs. */
  lemma {:induction false} FeedNoInputs(insns: seq<Insn>, inputs: seq<int>)
    requires forall i :: 0 <= i < |insns| ==> insns[i].op != Inp
    ensures Inputs(insns) == 0 && Feed(insns, inputs) == insns
  {
    if insns != [] {
      var front := insns[..|insns| - 1];
      FeedNoInputs(front, inputs);
      assert front + [insns[|insns| - 1]] == insns;
    }
  }

  /** The first instruction of a program that runs does not panic, and the rest runs on from it. */
  lemma ExecuteFirst(regs: Registers, insns: seq<Insn>)
    requires insns != [] && Execute(regs, insns).Some?
    ensures Exec(regs, insns[0]).Some?
    ensures Execute(Exec(regs, insns[0]).value, insns[1..]) == Execute(regs, insns)
  {
  }

  /** The `map` at the start of `run_program`, with its running count of `inp`s. */
  method FeedInputs(insns: seq<Insn>, inputs: seq<int>) returns (fed: seq<Insn>)
    requires Inputs(insns) <= |inputs|
    ensures fed == Feed(insns, inputs)
  {
    var inpCount := 0;
    fed := [];
    for i := 0 to |insns|
      invariant inpCount == Inputs(insns[..i]) && inpCount <= |inputs|
      invariant fed == Feed(insns[..i], inputs)
    {
      assert insns[..i + 1][..i] == insns[..i];
      InputsPrefix(insns, i + 1);
      var insn := insns[i];
      if insn.op == Inp {
        var src := Some(Immediate(inputs[inpCount]));
        inpCount := inpCount + 1;
        fed := fed + [Insn(insn.op, insn.dst, src)];
      } else {
        fed := fed + [insn];
      }
    }
    assert insns[..|insns|] == insns;
  }

  /** The `for` loop of `run_program`. */
  method RunAll(alu: ALU, insns: seq<Insn>)
    requires Execute(alu.State(), insns).Some?
    modifies alu
    ensures alu.State() == Execute(old(alu.State()), insns).value
  {
    ghost var start := alu.State();
    for i := 0 to |insns|
      invariant Execute(alu.State(), insns[i..]) == Execute(start, insns)
    {
      ExecuteFirst(alu.State(), insns[i..]);
      alu.Run(insns[i]);
      assert insns[i..][1..] == insns[i + 1..];
    }
    assert insns[|insns|..] == [];
  }

  /**
   * `run_program`: fill in the inputs, then run every instruction on the
   * ALU. The source panics on too few inputs and on a panicking
   * instruction; both are excluded here.
   */
  method RunProgram(alu: ALU, insns: seq<Insn>, inputs: seq<int>)
    requires Inputs(insns) <= |inputs|
    requires Execute(alu.State(), Feed(insns, inputs)).Some?
    modifies alu
    ensures alu.State() == Execute(old(alu.State()), Feed(insns, inputs)).value
  {
    var fed := FeedInputs(insns, inputs);
    RunAll(alu, fed);
  }

  // ---------------------------------------------------------------------
  // Model numbers and their digits
  // ---------------------------------------------------------------------

  /** `number_to_digits`: the digits of the decimal text; a `-` sign would make `to_digit(10).unwrap()` panic. */
  function NumberToDigits(n: int): (ds: seq<int>)
    requires n >= 0
    ensures |ds| == |Digits(n)|
  {
    var text := Digits(n);
    seq(|text|, i requires 0 <= i < |text| => DigitValue(text[i]) as int)
  }

  function Pow10(k: nat): (p: nat)
    ensures p >= 1
  {
    if k == 0 then 1 else 10 * Pow10(k - 1)
  }

  /** `digits_to_number`: the fold adding digit `n` times ten to the power of the places after it. */
  function DigitsToNumber(ds: seq<int>): int
  {
    if ds == [] then 0 else ds[0] * Pow10(|ds| - 1) + DigitsToNumber(ds[1..])
  }

  /** Appending a digit shifts the value one place and adds the digit. */
  lemma {:induction false} DigitsToNumberAppend(ds: seq<int>, d: int)
    ensures DigitsToNumber(ds + [d]) == 10 * DigitsToNumber(ds) + d
  {
    if ds == [] {
      assert [] + [d] == [d] && [d][1..] == [];
    } else {
      var a := ds[0];
      assert (ds + [d])[0] == a && (ds + [d])[1..] == ds[1..] + [d];
      DigitsToNumberAppend(ds[1..], d);
      assert Pow10(|ds|) == 10 * Pow10(|ds| - 1);
      assert a * Pow10(|ds|) == 10 * (a * Pow10(|ds| - 1));
    }
  }

  /** The digits of a number have the number's value. */
  lemma {:induction false} NumberToDigitsValue(n: nat)
    ensures DigitsToNumber(NumberToDigits(n)) == n
  {
    if n < 10 {
      assert NumberToDigits(n) == [n];
    } else {
      NumberToDigitsValue(n / 10);
      NumberToDigitsSplit(n);
      DigitsToNumberAppend(NumberToDigits(n / 10), n % 10);
    }
  }

  /** The digits of a number of two places or more are those of its tens, then its units. */
  lemma NumberToDigitsSplit(n: nat)
    requires n >= 10
    ensures NumberToDigits(n) == NumberToDigits(n / 10) + [n % 10]
  {
    var front := Digits(n / 10);
    assert Digits(n) == front + [('0' as int + n % 10) as char];
    assert forall i :: 0 <= i < |front| ==> Digits(n)[i] == front[i];
  }

  /** Digit lists as `number_to_digits` produces them: no leading zero, unless the number is zero. */
  predicate Canonical(ds: seq<int>)
  {
    |ds| >= 1 && (forall i :: 0 <= i < |ds| ==> 0 <= ds[i] <= 9) && (|ds| > 1 ==> ds[0] != 0)
  }

  lemma ScaleDigit(d: int, p: nat)
    requires 0 <= d <= 9
    ensures 0 <= d * p <= 9 * p
    ensures d >= 1 ==> d * p >= p
  {
  }

  lemma {:induction false} DigitsToNumberBounds(ds: seq<int>)
    requires forall i :: 0 <= i < |ds| ==> 0 <= ds[i] <= 9
    ensures 0 <= DigitsToNumber(ds) < Pow10(|ds|)
    ensures ds != [] && ds[0] != 0 ==> DigitsToNumber(ds) >= Pow10(|ds| - 1)
  {
    if ds != [] {
      var rest := ds[1..];
      assert forall i :: 0 <= i < |rest| ==> rest[i] == ds[i + 1];
      DigitsToNumberBounds(rest);
      var p := Pow10(|ds| - 1);
      assert Pow10(|ds|) == 10 * p;
      ScaleDigit(ds[0], p);
    }
  }

  /** A canonical digit list is the digit list of its value. */
  lemma {:induction false} DigitsOfValue(ds: seq<int>)
    requires Canonical(ds)
    ensures DigitsToNumber(ds) >= 0 && NumberToDigits(DigitsToNumber(ds)) == ds
    decreases |ds|
  {
    DigitsToNumberBounds(ds);
    if |ds| == 1 {
      assert ds == [] + [ds[0]];
      DigitsToNumberAppend([], ds[0]);
      assert NumberToDigits(ds[0]) == [ds[0]];
    } else {
      var front, d := ds[..|ds| - 1], ds[|ds| - 1];
      assert front + [d] == ds;
      assert front[0] == ds[0];
      DigitsToNumberAppend(front, d);
      DigitsOfValue(front);
      DigitsToNumberBounds(front);
      var v := DigitsToNumber(front);
      assert v >= 1;
      var n := 10 * v + d;
      assert n / 10 == v && n % 10 == d;
      NumberToDigitsSplit(n);
    }
  }

  /** A prefix extended by a digit, as the search builds it, and its score. */
  lemma ExtendedScore(input: nat, digit: int)
    ensures DigitsToNumber(NumberToDigits(input) + [digit]) == 10 * input + digit
  {
    DigitsToNumberAppend(NumberToDigits(input), digit);
    NumberToDigitsValue(input);
  }

  /** Appending a digit to a positive number appends it to the number's digits. */
  lemma AppendDigit(n: nat, ds: seq<int>, d: int)
    requires n >= 1 && 0 <= d <= 9 && NumberToDigits(n) == ds
    ensures NumberToDigits(10 * n + d) == ds + [d]
  {
    NumberToDigitsSplit(10 * n + d);
  }

  /** The `digits_to_number_test`, both ways. */
  lemma DigitsExample()
    ensures DigitsToNumber([1, 3, 5, 7, 9, 2, 4, 6, 8, 9, 9, 9, 9, 9]) == 13579246899999
    ensures NumberToDigits(13579246899999) == [1, 3, 5, 7, 9, 2, 4, 6, 8, 9, 9, 9, 9, 9]
  {
    var n: nat, ds := 1, [1];
    assert NumberToDigits(1) == [1];
    AppendDigit(n, ds, 3);
    n, ds := 10 * n + 3, ds + [3];
    AppendDigit(n, ds, 5);
    n, ds := 10 * n + 5, ds + [5];
    AppendDigit(n, ds, 7);
    n, ds := 10 * n + 7, ds + [7];
    AppendDigit(n, ds, 9);
    n, ds := 10 * n + 9, ds + [9];
    AppendDigit(n, ds, 2);
    n, ds := 10 * n + 2, ds + [2];
    AppendDigit(n, ds, 4);
    n, ds := 10 * n + 4, ds + [4];
    assert ds == [1, 3, 5, 7, 9, 2, 4];
    AppendDigit(n, ds, 6);
    n, ds := 10 * n + 6, ds + [6];
    AppendDigit(n, ds, 8);
    n, ds := 10 * n + 8, ds + [8];
    AppendDigit(n, ds, 9);
    n, ds := 10 * n + 9, ds + [9];
    AppendDigit(n, ds, 9);
    n, ds := 10 * n + 9, ds + [9];
    AppendDigit(n, ds, 9);
    n, ds := 10 * n + 9, ds + [9];
    AppendDigit(n, ds, 9);
    n, ds := 10 * n + 9, ds + [9];
    AppendDigit(n, ds, 9);
    n, ds := 10 * n + 9, ds + [9];
    assert n == 13579246899999;
    assert ds == [1, 3, 5, 7, 9, 2, 4, 6, 8, 9, 9, 9, 9, 9];
    NumberToDigitsValue(n);
  }

  // ---------------------------------------------------------------------
  // The test programs
  // ---------------------------------------------------------------------

  /** A program whose first instruction is its only `inp` is fed by filling in that one. */
  lemma FeedFirst(first: Insn, rest: seq<Insn>, v: int)
    requires first.op == Inp
    requires forall i :: 0 <= i < |rest| ==> rest[i].op != Inp
    ensures Inputs([first] + rest) == 1
    ensures Feed([first] + rest, [v]) == [Insn(Inp, first.dst, Some(Immediate(v)))] + rest
  {
    var insns := [first] + rest;
    var fed := [Insn(Inp, first.dst, Some(Immediate(v)))] + rest;
    FeedNoInputs(rest, [v]);
    InputsAfterFirst(first, rest);
    forall i | 0 <= i < |insns|
      ensures Feed(insns, [v])[i] == fed[i]
    {
      FeedAt(insns, [v], i);
      if i > 0 {
        InputsPrefix(insns, i);
        assert insns[i] == rest[i - 1];
      }
    }
  }

  lemma {:induction false} InputsAfterFirst(first: Insn, rest: seq<Insn>)
    requires first.op == Inp
    requires forall i :: 0 <= i < |rest| ==> rest[i].op != Inp
    ensures forall k :: 1 <= k <= |rest| + 1 ==> Inputs(([first] + rest)[..k]) == 1
    ensures Inputs([first] + rest) == 1
    decreases |rest|
  {
    if rest == [] {
      assert ([first] + rest)[..1] == [first];
      assert [first][..0] == [];
    } else {
      var front := rest[..|rest| - 1];
      InputsAfterFirst(first, front);
      assert ([first] + rest)[..|rest|] == [first] + front;
      forall k | 1 <= k <= |rest|
        ensures ([first] + rest)[..k] == ([first] + front)[..k]
      {
      }
      assert ([first] + rest)[..|rest| + 1] == [first] + rest;
    }
  }

  const NegateLines: seq<string> := ["inp x", "mul x -1"]

  const Negate: seq<Insn> := [Insn(Inp, X, None), Insn(Mul, X, Some(Immediate(-1)))]

  lemma ShowNegate()
    ensures ShowInsn(Negate[0]) == NegateLines[0]
    ensures ShowInsn(Negate[1]) == NegateLines[1]
  {
    assert ShowInt(-1) == "-1";
  }

  /** `example1_test`'s program parses. */
  lemma ParseNegate()
    ensures Parse(NegateLines) == Some(Negate)
  {
    ShowNegate();
    ParseShowLine(Negate[0]);
    ParseShowLine(Negate[1]);
    assert NegateLines[1..][1..] == [];
    assert [Negate[0]] + ([Negate[1]] + []) == Negate;
  }

  /** `example1_test`'s program negates its input, for every input whose negation fits an `isize`. */
  lemma NegateRuns(regs: Registers, v: int)
    requires I64Min < v < I64End
    ensures Inputs(Negate) == 1
    ensures Execute(regs, Feed(Negate, [v])) == Some(regs.(x := -v))
  {
    FeedFirst(Negate[0], Negate[1..], v);
    assert [Negate[0]] + Negate[1..] == Negate;
    var fed := Feed(Negate, [v]);
    var read := regs.(x := v);
    assert Exec(regs, fed[0]) == Some(read);
    assert Compute(Mul, v, -1) == Some(-v);
    assert Exec(read, fed[1..][0]) == Some(regs.(x := -v));
    assert fed[1..][1..] == [];
    assert Execute(read, fed[1..]) == Some(regs.(x := -v));
  }

  /** `example1_test`: a fresh ALU running the program on 5 and then on -5. */
  method NegateExample() returns (first: int, second: int)
    ensures first == -5 && second == 5
  {
    ParseNegate();
    var insns := Parse(NegateLines).value;
    var alu := new ALU();
    NegateRuns(alu.State(), 5);
    RunProgram(alu, insns, [5]);
    first := alu.x;
    alu := new ALU();
    NegateRuns(alu.State(), -5);
    RunProgram(alu, insns, [-5]);
    second := alu.x;
  }

  /** Each line shown from its instruction parses back to the program. */
  lemma ParseShownLines(lines: seq<string>, insns: seq<Insn>)
    requires |lines| == |insns|
    requires forall i :: 0 <= i < |insns| ==> Printable(insns[i]) && lines[i] == ShowInsn(insns[i])
    ensures Parse(lines) == Some(insns)
  {
    ShowProgramAt(insns);
    assert lines == ShowProgram(insns);
    ParseShown(insns);
  }

  lemma {:induction false} ShowProgramAt(insns: seq<Insn>)
    ensures forall i :: 0 <= i < |insns| ==> ShowProgram(insns)[i] == ShowInsn(insns[i])
  {
    if insns != [] {
      ShowProgramAt(insns[1..]);
      assert forall i :: 0 < i < |insns| ==> insns[1..][i - 1] == insns[i];
    }
  }

  /** Three instructions that halve `w` and keep the low bit of the half in `reg`, which starts at zero. */
  function TakeBit(reg: Register): seq<Insn>
  {
    [Insn(Div, W, Some(Immediate(2))), Insn(Add, reg, Some(Named(W))), Insn(Mod, reg, Some(Immediate(2)))]
  }

  /** Halving stays within an `isize`, and so does a remainder by two. */
  lemma HalfInRange(n: int)
    requires InRange(n)
    ensures InRange(TruncDiv(n, 2)) && InRange(TruncMod(n, 2))
  {
    TruncDivMod(n, 2);
  }

  lemma TakeBitRuns(regs: Registers, reg: Register)
    requires reg != W && Read(regs, reg) == 0 && InRange(regs.w)
    ensures Execute(regs, TakeBit(reg)) ==
      Some(Write(Write(regs, W, TruncDiv(regs.w, 2)), reg, TruncMod(TruncDiv(regs.w, 2), 2)))
  {
    var insns := TakeBit(reg);
    var h := TruncDiv(regs.w, 2);
    HalfInRange(regs.w);
    HalfInRange(h);
    var halved := Write(regs, W, h);
    var added := Write(halved, reg, h);
    var result := Write(added, reg, TruncMod(h, 2));
    assert Exec(regs, insns[0]) == Some(halved);
    assert Exec(halved, insns[1]) == Some(added);
    assert Exec(added, insns[2]) == Some(result);
    assert insns[1..][1..][1..] == [];
    assert Execute(added, insns[1..][1..]) == Some(result);
    assert Write(halved, reg, TruncMod(h, 2)) == result by {
      SameRegisters(Write(halved, reg, TruncMod(h, 2)), result);
    }
  }

  /** `example3_test`'s program, which puts the four low bits of its input in `w`, `x`, `y` and `z`. */
  const BitsLines: seq<string> :=
    ["inp w", "add z w", "mod z 2", "div w 2", "add y w", "mod y 2"] +
    ["div w 2", "add x w", "mod x 2", "div w 2", "mod w 2"]

  /** The first three instructions, which read the input into `w` and keep its low bit in `z`. */
  const BitsStart: seq<Insn> :=
    [Insn(Inp, W, None), Insn(Add, Z, Some(Named(W))), Insn(Mod, Z, Some(Immediate(2)))]

  const BitsEnd: seq<Insn> := [Insn(Div, W, Some(Immediate(2))), Insn(Mod, W, Some(Immediate(2)))]

  const Bits: seq<Insn> := BitsStart + TakeBit(Y) + TakeBit(X) + BitsEnd

  lemma ShowBitsStart()
    ensures forall i :: 0 <= i < 3 ==> Printable(Bits[i]) && BitsLines[i] == ShowInsn(Bits[i])
  {
    assert Bits[0] == BitsStart[0] && Bits[1] == BitsStart[1] && Bits[2] == BitsStart[2];
  }

  lemma ShowTakeBit(reg: Register)
    ensures forall i :: 0 <= i < 3 ==> Printable(TakeBit(reg)[i])
    ensures ShowInsn(TakeBit(reg)[0]) == "div w 2"
    ensures ShowInsn(TakeBit(reg)[1]) == "add " + Name(reg) + " w"
    ensures ShowInsn(TakeBit(reg)[2]) == "mod " + Name(reg) + " 2"
  {
  }

  lemma ShowBitsMiddle()
    ensures forall i :: 3 <= i < 9 ==> Printable(Bits[i]) && BitsLines[i] == ShowInsn(Bits[i])
  {
    ShowTakeBit(Y);
    ShowTakeBit(X);
    var y, x := TakeBit(Y), TakeBit(X);
    assert Bits[3] == y[0] && Bits[4] == y[1] && Bits[5] == y[2];
    assert Bits[6] == x[0] && Bits[7] == x[1] && Bits[8] == x[2];
    assert BitsLines[4] == "add " + Name(Y) + " w" && BitsLines[5] == "mod " + Name(Y) + " 2";
    assert BitsLines[7] == "add " + Name(X) + " w" && BitsLines[8] == "mod " + Name(X) + " 2";
  }

  lemma ShowBitsEnd()
    ensures forall i :: 9 <= i < 11 ==> Printable(Bits[i]) && BitsLines[i] == ShowInsn(Bits[i])
  {
    assert Bits[9] == BitsEnd[0] && Bits[10] == BitsEnd[1];
  }

  /** `example3_test`'s program parses. */
  lemma ParseBits()
    ensures Parse(BitsLines) == Some(Bits)
  {
    ShowBitsStart();
    ShowBitsMiddle();
    ShowBitsEnd();
    ParseShownLines(BitsLines, Bits);
  }

  /**
   * On input `n` the program leaves in `z` the remainder of `n` by two,
   * and in `y`, `x` and `w` that of `n` halved once, twice and three
   * times, with Rust's truncating operators.
   */
  lemma BitsRuns(n: int)
    requires InRange(n)
    ensures Inputs(Bits) == 1
    ensures
      var h := TruncDiv(n, 2);
      var q := TruncDiv(h, 2);
      var e := TruncDiv(q, 2);
      Execute(Registers(0, 0, 0, 0), Feed(Bits, [n])) ==
      Some(Registers(TruncMod(e, 2), TruncMod(q, 2), TruncMod(h, 2), TruncMod(n, 2)))
  {
    var h := TruncDiv(n, 2);
    var q := TruncDiv(h, 2);
    var e := TruncDiv(q, 2);
    HalfInRange(n);
    HalfInRange(h);
    HalfInRange(q);
    HalfInRange(e);
    var start := [Insn(Inp, W, Some(Immediate(n)))] + BitsStart[1..];
    FedBits(n);
    BitsStartRuns(n);
    var s1 := BitsFirst(n);
    var s2 := Registers(h, 0, TruncMod(h, 2), TruncMod(n, 2));
    var s3 := Registers(q, TruncMod(q, 2), TruncMod(h, 2), TruncMod(n, 2));
    var s4 := Registers(TruncMod(e, 2), TruncMod(q, 2), TruncMod(h, 2), TruncMod(n, 2));
    TakeBitRuns(s1, Y);
    assert Write(Write(s1, W, h), Y, TruncMod(h, 2)) == s2;
    TakeBitRuns(s2, X);
    assert Write(Write(s2, W, q), X, TruncMod(q, 2)) == s3;
    BitsLast(s3);
    assert s3.(w := TruncMod(e, 2)) == s4;
    var zero := Registers(0, 0, 0, 0);
    ExecuteAppend(zero, start, TakeBit(Y));
    assert Execute(zero, start + TakeBit(Y)) == Some(s2);
    ExecuteAppend(zero, start + TakeBit(Y), TakeBit(X));
    assert Execute(zero, start + TakeBit(Y) + TakeBit(X)) == Some(s3);
    ExecuteAppend(zero, start + TakeBit(Y) + TakeBit(X), BitsEnd);
    assert Execute(zero, start + TakeBit(Y) + TakeBit(X) + BitsEnd) == Some(s4);
  }

  lemma FedBits(n: int)
    ensures Inputs(Bits) == 1
    ensures Feed(Bits, [n]) == [Insn(Inp, W, Some(Immediate(n)))] + BitsStart[1..] + TakeBit(Y) + TakeBit(X) + BitsEnd
  {
    var rest := Bits[1..];
    assert rest == BitsStart[1..] + TakeBit(Y) + TakeBit(X) + BitsEnd;
    assert forall i :: 0 <= i < |rest| ==> rest[i].op != Inp;
    FeedFirst(Bits[0], rest, n);
    assert [Bits[0]] + rest == Bits;
  }

  function BitsFirst(n: int): Registers
  {
    Registers(n, 0, 0, TruncMod(n, 2))
  }

  lemma BitsStartRuns(n: int)
    requires InRange(n)
    ensures Execute(Registers(0, 0, 0, 0), [Insn(Inp, W, Some(Immediate(n)))] + BitsStart[1..]) == Some(BitsFirst(n))
  {
    HalfInRange(n);
    var insns := [Insn(Inp, W, Some(Immediate(n)))] + BitsStart[1..];
    var read := Registers(n, 0, 0, 0);
    var added := Registers(n, 0, 0, n);
    assert Exec(Registers(0, 0, 0, 0), insns[0]) == Some(read);
    assert Exec(read, insns[1]) == Some(added);
    assert Exec(added, insns[2]) == Some(BitsFirst(n));
    assert insns[1..][1..][1..] == [];
    assert Execute(added, insns[1..][1..]) == Some(BitsFirst(n));
  }

  lemma BitsLast(regs: Registers)
    requires InRange(regs.w)
    ensures Execute(regs, BitsEnd) == Some(regs.(w := TruncMod(TruncDiv(regs.w, 2), 2)))
  {
    var e := TruncDiv(regs.w, 2);
    HalfInRange(regs.w);
    HalfInRange(e);
    var halved := regs.(w := e);
    assert Exec(regs, BitsEnd[0]) == Some(halved);
    assert Exec(halved, BitsEnd[1]) == Some(regs.(w := TruncMod(e, 2)));
    assert BitsEnd[1..][1..] == [];
  }

  /** For a non-negative input, the registers hold bits three, two, one and zero of its binary form. */
  lemma BitsOfNatural(n: nat)
    requires n < I64End
    ensures Inputs(Bits) == 1
    ensures Execute(Registers(0, 0, 0, 0), Feed(Bits, [n])) == Some(Registers((n / 8) % 2, (n / 4) % 2, (n / 2) % 2, n % 2))
  {
    BitsRuns(n);
    TruncNatural(n, 2);
    TruncNatural(n / 2, 2);
    TruncNatural(n / 4, 2);
    Halves(n);
  }

  lemma Halves(n: nat)
    ensures n / 2 / 2 == n / 4 && n / 4 / 2 == n / 8
  {
    var h, q := n / 2, n / 4;
    assert n == 2 * h + n % 2;
    assert h == 2 * (h / 2) + h % 2;
    assert n == 4 * (h / 2) + 2 * (h % 2) + n % 2;
    assert n == 4 * q + n % 4;
    assert q == 2 * (q / 2) + q % 2;
    assert n == 8 * (q / 2) + 4 * (q % 2) + n % 4;
  }

  /** A fresh ALU running the parsed `example3_test` program on `n`. */
  method RunBits(n: nat) returns (regs: Registers)
    requires n < I64End
    ensures regs == Registers((n / 8) % 2, (n / 4) % 2, (n / 2) % 2, n % 2)
  {
    ParseBits();
    var insns := Parse(BitsLines).value;
    var alu := new ALU();
    BitsOfNatural(n);
    RunProgram(alu, insns, [n]);
    regs := alu.State();
  }

  /** `example3_test`: the program run on 15, 85 and 682. */
  method BitsExample() returns (first: Registers, second: Registers, third: Registers)
    ensures first == Registers(1, 1, 1, 1)
    ensures second == Registers(0, 1, 0, 1)
    ensures third == Registers(1, 0, 1, 0)
  {
    first := RunBits(15);
    second := RunBits(85);
    third := RunBits(682);
  }

  // ---------------------------------------------------------------------
  // The search for the lowest model number
  // ---------------------------------------------------------------------

  predicate NoInputs(chunk: seq<Insn>)
  {
    forall i :: 0 <= i < |chunk| ==> chunk[i].op != Inp
  }

  /** `insns.split(|insn| insn.op == Operation::Inp)`: the runs between `inp`s, empty ones included. */
  function Chunks(insns: seq<Insn>): (chunks: seq<seq<Insn>>)
    ensures |chunks| >= 1
    ensures forall k :: 0 <= k < |chunks| ==> NoInputs(chunks[k])
  {
    if insns == [] then [[]]
    else
      var rest := Chunks(insns[1..]);
      if insns[0].op == Inp then [[]] + rest
      else
        assert forall i :: 0 < i < |[insns[0]] + rest[0]| ==> ([insns[0]] + rest[0])[i] == rest[0][i - 1];
        [[insns[0]] + rest[0]] + rest[1..]
  }

  /** The instructions other than `inp`, in order. */
  function Others(insns: seq<Insn>): seq<Insn>
  {
    if insns == [] then []
    else (if insns[0].op == Inp then [] else [insns[0]]) + Others(insns[1..])
  }

  function Concat(chunks: seq<seq<Insn>>): seq<Insn>
  {
    if chunks == [] then [] else chunks[0] + Concat(chunks[1..])
  }

  /** The chunks hold every instruction other than `inp`, in order, once each. */
  lemma {:induction false} ChunksCover(insns: seq<Insn>)
    ensures Concat(Chunks(insns)) == Others(insns)
  {
    if insns == [] {
      assert Concat([[]]) == [] + Concat([]);
    } else {
      var rest := Chunks(insns[1..]);
      ChunksCover(insns[1..]);
      if insns[0].op == Inp {
        assert ([[]] + rest)[1..] == rest;
      } else {
        var chunks := [[insns[0]] + rest[0]] + rest[1..];
        assert chunks[1..] == rest[1..];
        assert Concat(rest) == rest[0] + Concat(rest[1..]);
        assert ([insns[0]] + rest[0]) + Concat(rest[1..]) == [insns[0]] + (rest[0] + Concat(rest[1..]));
      }
    }
  }

  /** The registers a chunk starts from: `z` carried over, `w` the digit just read, `x` and `y` cleared. */
  function Start(z: int, digit: int): Registers
  {
    Registers(digit, 0, 0, z)
  }

  /** The `z` a chunk leaves, or `None` if it panics. */
  function After(chunk: seq<Insn>, z: int, digit: int): Option<int>
  {
    match Execute(Start(z, digit), chunk)
    case Some(regs) => Some(regs.z)
    case None => None
  }

  /** The digits of the prefix that reaches a state, extended by one more. */
  function Prefix(input: nat, digit: nat): (ds: seq<int>)
    ensures |ds| == |Digits(input)| + 1
  {
    NumberToDigits(input) + [digit]
  }

  /** `digits_to_number` of the extended prefix: one more decimal place. */
  function Score(input: nat, digit: nat): (score: nat)
    ensures score == 10 * input + digit
  {
    ExtendedScore(input, digit);
    DigitsToNumber(Prefix(input, digit))
  }

  /** A prefix of fourteen digits: a whole model number. */
  predicate Whole(input: nat, digit: nat)
  {
    |Prefix(input, digit)| == 14
  }

  /** State `s` with digit `d` runs the chunk to a `z` other than a valid model's. */
  predicate Lands(chunk: seq<Insn>, states: map<int, nat>, s: int, d: int, z: int)
  {
    s in states && 1 <= d <= 9 && After(chunk, s, d) == Some(z) && !(z == 0 && Whole(states[s], d))
  }

  /** State `s` with digit `d` completes a valid model number: fourteen digits and `z` zero. */
  predicate Completes(chunk: seq<Insn>, states: map<int, nat>, s: int, d: int)
  {
    s in states && 1 <= d <= 9 && After(chunk, s, d) == Some(0) && Whole(states[s], d)
  }

  predicate Fails(chunk: seq<Insn>, states: map<int, nat>, s: int, d: int)
  {
    s in states && 1 <= d <= 9 && After(chunk, s, d).None?
  }

  /** The smallest of a non-empty set of numbers. */
  ghost function Least(scores: set<nat>): (m: nat)
    requires scores != {}
    ensures m in scores && forall v :: v in scores ==> m <= v
  {
    var v :| v in scores;
    if scores - {v} == {} then
      assert forall u :: u in scores ==> u == v by {
        forall u | u in scores ensures u == v { assert u !in scores - {v}; }
      }
      v
    else
      var rest := Least(scores - {v});
      assert forall u :: u in scores ==> u == v || u in scores - {v};
      if v < rest then v else rest
  }

  /** Every `z` the chunk lands on from the states. */
  ghost function Landings(chunk: seq<Insn>, states: map<int, nat>): set<int>
  {
    set s, d | s in states && 1 <= d <= 9 && After(chunk, s, d).Some? && Lands(chunk, states, s, d, After(chunk, s, d).value)
      :: After(chunk, s, d).value
  }

  /** The scores of the prefixes landing on `z`. */
  ghost function ScoresAt(chunk: seq<Insn>, states: map<int, nat>, z: int): set<nat>
  {
    set s, d | s in states && 1 <= d <= 9 && Lands(chunk, states, s, d, z) :: Score(states[s], d)
  }

  /** What a chunk should leave: each `z` it lands on, with the lowest score of a prefix landing there. */
  ghost function LowsOf(chunk: seq<Insn>, states: map<int, nat>): map<int, nat>
  {
    map z | z in Landings(chunk, states) :: LandingScores(chunk, states, z); Least(ScoresAt(chunk, states, z))
  }

  /** The valid model numbers a chunk completes. */
  ghost function ValidOf(chunk: seq<Insn>, states: map<int, nat>): set<nat>
  {
    set s, d | s in states && 1 <= d <= 9 && Completes(chunk, states, s, d) :: Score(states[s], d)
  }

  lemma LandingScores(chunk: seq<Insn>, states: map<int, nat>, z: int)
    ensures z in Landings(chunk, states) ==> ScoresAt(chunk, states, z) != {}
  {
    if z in Landings(chunk, states) {
      var s, d :| s in states && 1 <= d <= 9 && After(chunk, s, d).Some? && Lands(chunk, states, s, d, After(chunk, s, d).value)
        && z == After(chunk, s, d).value;
      assert Score(states[s], d) in ScoresAt(chunk, states, z);
    }
  }

  /** A chunk keeps, for every `z` it lands on, exactly the lowest score of the prefixes landing there. */
  lemma LowsOfLowest(chunk: seq<Insn>, states: map<int, nat>, s: int, d: int, z: int)
    requires Lands(chunk, states, s, d, z)
    ensures z in LowsOf(chunk, states) && LowsOf(chunk, states)[z] <= Score(states[s], d)
  {
    assert z in Landings(chunk, states);
    LandingScores(chunk, states, z);
    assert Score(states[s], d) in ScoresAt(chunk, states, z);
  }

  /** Every `z` a chunk keeps is landed on by a prefix with exactly the score kept. */
  lemma LowsOfReached(chunk: seq<Insn>, states: map<int, nat>, z: int)
    requires z in LowsOf(chunk, states)
    ensures exists s, d :: Lands(chunk, states, s, d, z) && Score(states[s], d) == LowsOf(chunk, states)[z]
  {
    LandingScores(chunk, states, z);
    var v := LowsOf(chunk, states)[z];
    assert v in ScoresAt(chunk, states, z);
  }

  /**
   * One prefix's turn in the loop of `main`: a valid model number is
   * pushed; otherwise the score is inserted for the `z` reached unless a
   * lower one is there already.
   */
  function Record(lows: map<int, nat>, valid: seq<nat>, z: int, score: nat, whole: bool): (map<int, nat>, seq<nat>)
  {
    if z == 0 && whole then (lows, valid + [score])
    else if z in lows && score > lows[z] then (lows, valid)
    else (lows[z := score], valid)
  }

  /** Some prefix among `done` lands on `z` with score `v`. */
  ghost predicate Reaches(chunk: seq<Insn>, states: map<int, nat>, done: set<(int, int)>, z: int, v: nat)
  {
    exists s, d :: (s, d) in done && Lands(chunk, states, s, d, z) && Score(states[s], d) == v
  }

  /** Some prefix among `done` completes the valid model number `v`. */
  ghost predicate Finds(chunk: seq<Insn>, states: map<int, nat>, done: set<(int, int)>, v: nat)
  {
    exists s, d :: (s, d) in done && Completes(chunk, states, s, d) && Score(states[s], d) == v
  }

  /** Every kept score is the score of a prefix among `done` landing there. */
  ghost predicate LowsReached(chunk: seq<Insn>, states: map<int, nat>, done: set<(int, int)>, lows: map<int, nat>)
  {
    forall z :: z in lows ==> Reaches(chunk, states, done, z, lows[z])
  }

  /** Every prefix among `done` that lands somewhere has the `z` kept with a score no higher than its own. */
  ghost predicate LowsBelow(chunk: seq<Insn>, states: map<int, nat>, done: set<(int, int)>, lows: map<int, nat>)
  {
    forall s, d, z :: (s, d) in done && Lands(chunk, states, s, d, z) ==> z in lows && lows[z] <= Score(states[s], d)
  }

  /** Every recorded valid model number comes from a prefix among `done`. */
  ghost predicate ValidReached(chunk: seq<Insn>, states: map<int, nat>, done: set<(int, int)>, valid: seq<nat>)
  {
    forall v :: v in valid ==> Finds(chunk, states, done, v)
  }

  /** Every prefix among `done` that completes a model number has it recorded. */
  ghost predicate ValidAll(chunk: seq<Insn>, states: map<int, nat>, done: set<(int, int)>, valid: seq<nat>)
  {
    forall s, d :: (s, d) in done && Completes(chunk, states, s, d) ==> Score(states[s], d) in valid
  }

  ghost predicate Summarises(chunk: seq<Insn>, states: map<int, nat>, done: set<(int, int)>, lows: map<int, nat>, valid: seq<nat>)
  {
    LowsReached(chunk, states, done, lows) && LowsBelow(chunk, states, done, lows) &&
    ValidReached(chunk, states, done, valid) && ValidAll(chunk, states, done, valid)
  }

  lemma RecordReached(chunk: seq<Insn>, states: map<int, nat>, done: set<(int, int)>, lows: map<int, nat>, valid: seq<nat>, s: int, d: int)
    requires s in states && 1 <= d <= 9 && After(chunk, s, d).Some?
    requires LowsReached(chunk, states, done, lows) && ValidReached(chunk, states, done, valid)
    ensures var (lows', valid') := Record(lows, valid, After(chunk, s, d).value, Score(states[s], d), Whole(states[s], d));
      LowsReached(chunk, states, done + {(s, d)}, lows') && ValidReached(chunk, states, done + {(s, d)}, valid')
  {
    var z, score, whole := After(chunk, s, d).value, Score(states[s], d), Whole(states[s], d);
    var (lows', valid') := Record(lows, valid, z, score, whole);
    var done' := done + {(s, d)};
    forall u | u in lows'
      ensures Reaches(chunk, states, done', u, lows'[u])
    {
      if u == z && !(z == 0 && whole) && !(z in lows && score > lows[z]) {
        assert (s, d) in done' && Lands(chunk, states, s, d, z);
      } else {
        var s', d' :| (s', d') in done && Lands(chunk, states, s', d', u) && Score(states[s'], d') == lows[u];
        assert (s', d') in done';
      }
    }
    forall v | v in valid'
      ensures Finds(chunk, states, done', v)
    {
      if v in valid {
        var s', d' :| (s', d') in done && Completes(chunk, states, s', d') && Score(states[s'], d') == v;
        assert (s', d') in done';
      } else {
        assert (s, d) in done' && Completes(chunk, states, s, d);
      }
    }
  }

  lemma RecordBelow(chunk: seq<Insn>, states: map<int, nat>, done: set<(int, int)>, lows: map<int, nat>, valid: seq<nat>, s: int, d: int)
    requires s in states && 1 <= d <= 9 && After(chunk, s, d).Some?
    requires LowsBelow(chunk, states, done, lows) && ValidAll(chunk, states, done, valid)
    ensures var (lows', valid') := Record(lows, valid, After(chunk, s, d).value, Score(states[s], d), Whole(states[s], d));
      LowsBelow(chunk, states, done + {(s, d)}, lows') && ValidAll(chunk, states, done + {(s, d)}, valid')
  {
    var z, score, whole := After(chunk, s, d).value, Score(states[s], d), Whole(states[s], d);
    var (lows', valid') := Record(lows, valid, z, score, whole);
    var done' := done + {(s, d)};
    forall s', d', u | (s', d') in done' && Lands(chunk, states, s', d', u)
      ensures u in lows' && lows'[u] <= Score(states[s'], d')
    {
      if (s', d') != (s, d) {
        assert (s', d') in done;
      }
    }
    forall s', d' | (s', d') in done' && Completes(chunk, states, s', d')
      ensures Score(states[s'], d') in valid'
    {
      if (s', d') != (s, d) {
        assert (s', d') in done;
      }
    }
  }

  /** Once every prefix has had its turn, the map kept is the one the chunk should leave. */
  lemma LowsSummarised(chunk: seq<Insn>, states: map<int, nat>, done: set<(int, int)>, lows: map<int, nat>)
    requires LowsReached(chunk, states, done, lows) && LowsBelow(chunk, states, done, lows)
    requires forall s, d :: s in states && 1 <= d <= 9 ==> (s, d) in done
    ensures lows == LowsOf(chunk, states)
  {
    var expected := LowsOf(chunk, states);
    forall z | z in lows
      ensures z in expected && expected[z] == lows[z]
    {
      KeptAtMost(chunk, states, done, lows, z);
      KeptAtLeast(chunk, states, done, lows, z);
    }
    forall z | z in expected
      ensures z in lows
    {
      LowsOfReached(chunk, states, z);
      var s, d :| Lands(chunk, states, s, d, z) && Score(states[s], d) == expected[z];
      assert (s, d) in done;
    }
    SameMaps(lows, expected);
  }

  lemma SameMaps(a: map<int, nat>, b: map<int, nat>)
    requires forall z :: z in a ==> z in b && b[z] == a[z]
    requires forall z :: z in b ==> z in a
    ensures a == b
  {
    assert forall z :: z in a.Keys <==> z in b.Keys;
    assert a.Keys == b.Keys;
    assert forall z :: z in a ==> a[z] == b[z];
  }

  /** A kept score is one the chunk should keep, or higher. */
  lemma KeptAtMost(chunk: seq<Insn>, states: map<int, nat>, done: set<(int, int)>, lows: map<int, nat>, z: int)
    requires LowsReached(chunk, states, done, lows)
    requires z in lows
    ensures z in LowsOf(chunk, states) && LowsOf(chunk, states)[z] <= lows[z]
  {
    assert Reaches(chunk, states, done, z, lows[z]);
    var s, d :| (s, d) in done && Lands(chunk, states, s, d, z) && Score(states[s], d) == lows[z];
    LowsOfLowest(chunk, states, s, d, z);
  }

  /** A kept score is no higher than the one the chunk should keep. */
  lemma KeptAtLeast(chunk: seq<Insn>, states: map<int, nat>, done: set<(int, int)>, lows: map<int, nat>, z: int)
    requires LowsBelow(chunk, states, done, lows)
    requires forall s, d :: s in states && 1 <= d <= 9 ==> (s, d) in done
    requires z in LowsOf(chunk, states)
    ensures z in lows && lows[z] <= LowsOf(chunk, states)[z]
  {
    LowsOfReached(chunk, states, z);
    var s, d :| Lands(chunk, states, s, d, z) && Score(states[s], d) == LowsOf(chunk, states)[z];
    assert (s, d) in done;
  }

  /** Once every prefix has had its turn, the valid model numbers recorded are those the chunk completes. */
  lemma ValidSummarised(chunk: seq<Insn>, states: map<int, nat>, done: set<(int, int)>, valid: seq<nat>)
    requires ValidReached(chunk, states, done, valid) && ValidAll(chunk, states, done, valid)
    requires forall s, d :: s in states && 1 <= d <= 9 ==> (s, d) in done
    ensures forall v :: v in valid <==> v in ValidOf(chunk, states)
  {
    forall v | v in valid
      ensures v in ValidOf(chunk, states)
    {
      assert Finds(chunk, states, done, v);
      var s, d :| (s, d) in done && Completes(chunk, states, s, d) && Score(states[s], d) == v;
    }
    forall v | v in ValidOf(chunk, states)
      ensures v in valid
    {
      var s, d :| s in states && 1 <= d <= 9 && Completes(chunk, states, s, d) && Score(states[s], d) == v;
      assert (s, d) in done;
    }
  }

  /** One prefix's turn: run the chunk on a fresh ALU from the state and the digit, then record the outcome. */
  method Consider(chunk: seq<Insn>, states: map<int, nat>, s: int, digit: int, lows: map<int, nat>, valid: seq<nat>)
    returns (lows': map<int, nat>, valid': seq<nat>)
    requires NoInputs(chunk) && s in states && 1 <= digit <= 9 && After(chunk, s, digit).Some?
    ensures (lows', valid') == Record(lows, valid, After(chunk, s, digit).value, Score(states[s], digit), Whole(states[s], digit))
  {
    var alu := new ALU.Load(Start(s, digit));
    FeedNoInputs(chunk, []);
    RunProgram(alu, chunk, []);
    var newInput := NumberToDigits(states[s]) + [digit];
    ExtendedScore(states[s], digit);
    var score: nat := DigitsToNumber(newInput);
    lows', valid' := lows, valid;
    if alu.z == 0 && |newInput| == 14 {
      valid' := valid + [score];
    } else if alu.z in lows && score > lows[alu.z] {
    } else {
      lows' := lows[alu.z := score];
    }
  }

  /** One digit's turn for a state, with the prefix added to those done. */
  method ConsiderDigit(chunk: seq<Insn>, states: map<int, nat>, s: int, digit: int, lows: map<int, nat>, valid: seq<nat>, ghost done: set<(int, int)>)
    returns (lows': map<int, nat>, valid': seq<nat>, ghost done': set<(int, int)>)
    requires NoInputs(chunk) && s in states && 1 <= digit <= 9 && After(chunk, s, digit).Some?
    requires Summarises(chunk, states, done, lows, valid)
    ensures done' == done + {(s, digit)}
    ensures Summarises(chunk, states, done', lows', valid')
  {
    RecordReached(chunk, states, done, lows, valid, s, digit);
    RecordBelow(chunk, states, done, lows, valid, s, digit);
    lows', valid' := Consider(chunk, states, s, digit, lows, valid);
    done' := done + {(s, digit)};
  }

  /** The turns of one state, with every digit from 1 to 9; `false` if a run panics. */
  method ConsiderState(chunk: seq<Insn>, states: map<int, nat>, s: int, lows: map<int, nat>, valid: seq<nat>, ghost done: set<(int, int)>)
    returns (ok: bool, lows': map<int, nat>, valid': seq<nat>, ghost done': set<(int, int)>)
    requires NoInputs(chunk) && s in states
    requires Summarises(chunk, states, done, lows, valid)
    ensures !ok <==> exists d :: Fails(chunk, states, s, d)
    ensures ok ==> done <= done' && forall d :: 1 <= d <= 9 ==> (s, d) in done' && !Fails(chunk, states, s, d)
    ensures ok ==> Summarises(chunk, states, done', lows', valid')
  {
    lows', valid', done' := lows, valid, done;
    for digit := 1 to 10
      invariant done <= done'
      invariant forall d :: 1 <= d < digit ==> (s, d) in done' && !Fails(chunk, states, s, d)
      invariant Summarises(chunk, states, done', lows', valid')
    {
      if After(chunk, s, digit).None? {
        assert Fails(chunk, states, s, digit);
        return false, lows', valid', done';
      }
      lows', valid', done' := ConsiderDigit(chunk, states, s, digit, lows', valid', done');
    }
    ok := true;
  }

  /**
   * One chunk of `main`'s loop: every state with every digit from 1 to 9.
   * `None` if some run panics; otherwise the map kept for the next chunk
   * and the valid model numbers found.
   */
  method ChunkStep(chunk: seq<Insn>, states: map<int, nat>) returns (r: Option<(map<int, nat>, seq<nat>)>)
    requires NoInputs(chunk)
    ensures r.None? <==> exists s, d :: Fails(chunk, states, s, d)
    ensures r.Some? ==> r.value.0 == LowsOf(chunk, states)
    ensures r.Some? ==> forall v :: v in r.value.1 <==> v in ValidOf(chunk, states)
  {
    var lows: map<int, nat> := map[];
    var valid: seq<nat> := [];
    var todo := states.Keys;
    ghost var done: set<(int, int)> := {};
    // The source walks the keys in order; any order leaves the same map.
    while true
      invariant todo <= states.Keys
      invariant forall s', d' :: s' in states && s' !in todo && 1 <= d' <= 9 ==> (s', d') in done && !Fails(chunk, states, s', d')
      invariant Summarises(chunk, states, done, lows, valid)
      decreases |todo|
    {
      if s :| s in todo {
        var ok;
        ok, lows, valid, done := ConsiderState(chunk, states, s, lows, valid, done);
        if !ok {
          return None;
        }
        todo := todo - {s};
      } else {
        break;
      }
    }
    LowsSummarised(chunk, states, done, lows);
    ValidSummarised(chunk, states, done, valid);
    r := Some((lows, valid));
  }

  /**
   * The valid model numbers the loop of `main` records over the chunks
   * left, from the map of states it has; `None` if a run panics. Empty
   * chunks are skipped.
   */
  ghost function Recorded(chunks: seq<seq<Insn>>, states: map<int, nat>): Option<set<nat>>
    requires forall k :: 0 <= k < |chunks| ==> NoInputs(chunks[k])
    decreases |chunks|
  {
    if chunks == [] then Some({})
    else if chunks[0] == [] then Recorded(chunks[1..], states)
    else if exists s, d :: Fails(chunks[0], states, s, d) then None
    else
      match Recorded(chunks[1..], LowsOf(chunks[0], states))
      case None => None
      case Some(rest) => Some(ValidOf(chunks[0], states) + rest)
  }

  ghost function Members(valid: seq<nat>): set<nat>
  {
    set v | v in valid
  }

  /** `valid_models.iter().min()`: the smallest recorded, or `None` for none, where the `unwrap` panics. */
  method Smallest(valid: seq<nat>) returns (m: Option<nat>)
    ensures m.None? <==> valid == []
    ensures m.Some? ==> m.value in valid && forall v :: v in valid ==> m.value <= v
  {
    if valid == [] {
      return None;
    }
    var least := valid[0];
    for i := 1 to |valid|
      invariant least in valid[..i]
      invariant forall j :: 0 <= j < i ==> least <= valid[j]
    {
      if valid[i] < least {
        least := valid[i];
      }
    }
    assert valid[..|valid|] == valid;
    m := Some(least);
  }

  lemma MembersAppend(a: seq<nat>, b: seq<nat>)
    ensures Members(a + b) == Members(a) + Members(b)
  {
    assert forall v :: v in a + b <==> v in a || v in b;
  }

  /** What is left to record, one chunk further on. */
  lemma RecordedNext(chunks: seq<seq<Insn>>, k: nat, states: map<int, nat>)
    requires forall j :: 0 <= j < |chunks| ==> NoInputs(chunks[j])
    requires k < |chunks|
    ensures chunks[k] == [] ==> Recorded(chunks[k..], states) == Recorded(chunks[k + 1..], states)
    ensures chunks[k] != [] && (exists s, d :: Fails(chunks[k], states, s, d)) ==> Recorded(chunks[k..], states) == None
    ensures chunks[k] != [] && !(exists s, d :: Fails(chunks[k], states, s, d)) ==>
      Recorded(chunks[k..], states) ==
      Outcome(ValidOf(chunks[k], states), Recorded(chunks[k + 1..], LowsOf(chunks[k], states)))
  {
    assert chunks[k..][0] == chunks[k] && chunks[k..][1..] == chunks[k + 1..];
  }

  /** The recorded numbers so far together with those still to come. */
  function Outcome(valid: set<nat>, rest: Option<set<nat>>): Option<set<nat>>
  {
    match rest
    case None => None
    case Some(later) => Some(valid + later)
  }

  lemma OutcomeJoin(a: set<nat>, b: set<nat>, rest: Option<set<nat>>)
    ensures Outcome({}, rest) == rest
    ensures Outcome(a, Outcome(b, rest)) == Outcome(a + b, rest)
  {
    match rest {
      case None =>
      case Some(later) =>
        assert {} + later == later;
        assert a + (b + later) == (a + b) + later;
    }
  }

  /**
   * The search of `main`: the chunks of the program in turn, from the
   * single state `z == 0` reached by the empty prefix `0`, then the
   * smallest valid model number. `None` where the source panics: a run
   * that panics, or no valid model number to `unwrap`.
   */
  method LowestModel(insns: seq<Insn>) returns (r: Option<nat>)
    ensures var recorded := Recorded(Chunks(insns), map[0 := 0]);
      r.Some? <==> recorded.Some? && recorded.value != {}
    ensures r.Some? ==> r.value == Least(Recorded(Chunks(insns), map[0 := 0]).value)
  {
    var chunks := Chunks(insns);
    var states: map<int, nat> := map[0 := 0];
    var valid: seq<nat> := [];
    ghost var outcome := Recorded(chunks, states);
    assert chunks[0..] == chunks;
    assert Members(valid) == {};
    OutcomeJoin({}, {}, outcome);
    for k := 0 to |chunks|
      invariant outcome == Outcome(Members(valid), Recorded(chunks[k..], states))
    {
      RecordedNext(chunks, k, states);
      if chunks[k] == [] {
        continue;
      }
      var step := ChunkStep(chunks[k], states);
      if step.None? {
        return None;
      }
      var (lows, found) := step.value;
      assert Members(found) == ValidOf(chunks[k], states);
      MembersAppend(valid, found);
      OutcomeJoin(Members(valid), Members(found), Recorded(chunks[k + 1..], lows));
      valid := valid + found;
      states := lows;
    }
    assert chunks[|chunks|..] == [];
    assert outcome == Some(Members(valid));
    r := Smallest(valid);
    if r.Some? {
      assert valid[0] in Members(valid);
      var least := Least(Members(valid));
      assert least in valid && r.value in Members(valid);
      assert least <= r.value && r.value <= least;
    }
  }
}
