/**
 * Day 16, Packet Decoder: a hexadecimal transmission is expanded into bits
 * and read as one BITS packet. Every packet starts with a 3-bit version and
 * a 3-bit type id. Type 4 is a literal: 5-bit groups, each a continuation
 * bit and a nibble, the last group's lead bit 0. Every other type is an
 * operator whose children follow either an 11-bit child count or a 15-bit
 * length in bits. Part 1 sums every version in the tree; part 2 evaluates
 * the operators (sum, product, minimum, maximum, greater, less, equal).
 */
module PacketDecoder {
  import opened Options

  /** One bit, as the source stores it in a `usize`. */
  type Bit = b: nat | b <= 1

  // ---------------------------------------------------------------------
  // parse
  // ---------------------------------------------------------------------

  /** `to_digit(16)`: the value of a hexadecimal digit of either case. */
  function HexDigit(c: char): (r: Option<nat>)
    ensures r.Some? ==> r.value < 16
  {
    if '0' <= c <= '9' then Some(c as nat - '0' as nat)
    else if 'a' <= c <= 'f' then Some(c as nat - 'a' as nat + 10)
    else if 'A' <= c <= 'F' then Some(c as nat - 'A' as nat + 10)
    else None
  }

  /** `format!("{:04b}", n)`: the four bits of a nibble, most significant first. */
  function Nibble(n: nat): (bits: seq<Bit>)
    requires n < 16
    ensures |bits| == 4
  {
    [n / 8, n / 4 % 2, n / 2 % 2, n % 2]
  }

  /** A nibble's four bits spell it in binary. */
  lemma NibbleValue(n: nat)
    requires n < 16
    ensures BitsToVal(Nibble(n)) == n
  {
    var s := Nibble(n);
    var a: nat, b: nat, c: nat := s[0], s[1], s[2];
    assert BitsToVal(s[..1]) == a by {
      assert s[..1][..0] == [];
    }
    assert BitsToVal(s[..2]) == 2 * a + b by {
      assert s[..2][..1] == s[..1];
    }
    assert BitsToVal(s[..3]) == 4 * a + 2 * b + c by {
      assert s[..3][..2] == s[..2];
    }
    assert s[..4] == s;
    NibbleDigits(n);
  }

  lemma NibbleDigits(n: nat)
    requires n < 16
    ensures 8 * (n / 8) + 4 * (n / 4 % 2) + 2 * (n / 2 % 2) + n % 2 == n
  {
  }

  /** The bits of the hexadecimal digits of `line`, other characters skipped. */
  function HexBits(line: string): (bits: seq<Bit>)
  {
    if line == [] then []
    else
      var front := HexBits(line[..|line| - 1]);
      match HexDigit(line[|line| - 1])
      case Some(n) => front + Nibble(n)
      case None => front
  }

  /** `parse`: the bits of the first line; the source unwraps the line's presence. */
  function Parse(lines: seq<string>): seq<Bit>
    requires |lines| > 0
  {
    HexBits(lines[0])
  }

  predicate AllHex(line: string)
  {
    forall k :: 0 <= k < |line| ==> HexDigit(line[k]).Some?
  }

  /** The number a string of hexadecimal digits denotes. */
  function HexValue(line: string): nat
    requires AllHex(line)
  {
    if line == [] then 0 else 16 * HexValue(line[..|line| - 1]) + HexDigit(line[|line| - 1]).value
  }

  /** Four bits per hexadecimal digit ... */
  lemma {:induction false} HexBitsLength(line: string)
    requires AllHex(line)
    ensures |HexBits(line)| == 4 * |line|
  {
    if line != [] {
      AllHexFront(line);
      HexBitsLength(line[..|line| - 1]);
    }
  }

  /** ... and the bits spell the same number in binary as the digits in hexadecimal. */
  lemma {:induction false} HexBitsValue(line: string)
    requires AllHex(line)
    ensures BitsToVal(HexBits(line)) == HexValue(line)
  {
    if line != [] {
      var front := line[..|line| - 1];
      AllHexFront(line);
      HexBitsValue(front);
      var n := HexDigit(line[|line| - 1]).value;
      assert HexBits(line) == HexBits(front) + Nibble(n);
      BitsToValAppend(HexBits(front), Nibble(n));
      NibbleValue(n);
      assert Pow2(4) == 16;
      assert BitsToVal(HexBits(line)) == BitsToVal(HexBits(front)) * 16 + n;
      assert HexValue(line) == 16 * HexValue(front) + n;
    }
  }

  lemma AllHexFront(line: string)
    requires AllHex(line) && line != []
    ensures AllHex(line[..|line| - 1])
  {
    var front := line[..|line| - 1];
    forall k | 0 <= k < |front| ensures HexDigit(front[k]).Some? {
      assert front[k] == line[k];
    }
  }

  /** Characters that are not hexadecimal digits add no bits. */
  lemma {:induction false} HexBitsSkips(a: string, c: char, b: string)
    requires HexDigit(c).None?
    ensures HexBits(a + [c] + b) == HexBits(a + b)
    decreases |b|
  {
    if b == [] {
      assert (a + [c] + b)[..|a + [c] + b| - 1] == a;
      assert a + [c] + b == a + [c] && a + b == a;
    } else {
      var b' := b[..|b| - 1];
      var last := b[|b| - 1];
      HexBitsSkips(a, c, b');
      assert (a + [c] + b)[..|a + [c] + b| - 1] == a + [c] + b';
      assert (a + b)[..|a + b| - 1] == a + b';
      assert (a + [c] + b)[|a + [c] + b| - 1] == last && (a + b)[|a + b| - 1] == last;
    }
  }

  // ---------------------------------------------------------------------
  // bits_to_val
  // ---------------------------------------------------------------------

  function Pow2(n: nat): (p: nat)
    ensures p >= 1
  {
    if n == 0 then 1 else 2 * Pow2(n - 1)
  }

  /** The big-endian binary value of the bits (integer width not modelled). */
  function BitsToVal(bits: seq<Bit>): (v: nat)
    ensures v < Pow2(|bits|)
  {
    if bits == [] then 0 else 2 * BitsToVal(bits[..|bits| - 1]) + bits[|bits| - 1]
  }

  /** Appending bits shifts the value left by their number and adds theirs. */
  lemma {:induction false} BitsToValAppend(a: seq<Bit>, b: seq<Bit>)
    ensures BitsToVal(a + b) == BitsToVal(a) * Pow2(|b|) + BitsToVal(b)
    decreases |b|
  {
    if b == [] {
      assert a + b == a;
    } else {
      var b' := b[..|b| - 1];
      assert (a + b)[..|a + b| - 1] == a + b';
      BitsToValAppend(a, b');
      calc {
        BitsToVal(a + b);
        2 * BitsToVal(a + b') + b[|b| - 1];
        2 * (BitsToVal(a) * Pow2(|b'|) + BitsToVal(b')) + b[|b| - 1];
        { Times2(BitsToVal(a), Pow2(|b'|)); }
        BitsToVal(a) * Pow2(|b|) + BitsToVal(b);
      }
    }
  }

  lemma Times2(x: nat, p: nat)
    ensures 2 * (x * p) == x * (2 * p)
  {
  }

  /** The `width` bits of `v`, most significant first. */
  function ToBits(v: nat, width: nat): (bits: seq<Bit>)
    ensures |bits| == width
  {
    if width == 0 then [] else ToBits(v / 2, width - 1) + [v % 2]
  }

  /** `bits_to_val` undoes `ToBits` for every value that fits the width ... */
  lemma {:induction false} ToBitsValue(v: nat, width: nat)
    requires v < Pow2(width)
    ensures BitsToVal(ToBits(v, width)) == v
    decreases width
  {
    if width > 0 {
      var bits := ToBits(v, width);
      assert bits[..width - 1] == ToBits(v / 2, width - 1) && bits[width - 1] == v % 2;
      Halve(v, Pow2(width - 1));
      ToBitsValue(v / 2, width - 1);
      assert BitsToVal(bits) == 2 * (v / 2) + v % 2;
    }
  }

  lemma Halve(v: nat, p: nat)
    requires v < 2 * p
    ensures v / 2 < p && 2 * (v / 2) + v % 2 == v
  {
  }

  /** ... and `ToBits` undoes `bits_to_val`. */
  lemma {:induction false} BitsValueBits(bits: seq<Bit>)
    ensures ToBits(BitsToVal(bits), |bits|) == bits
  {
    if bits != [] {
      var front := bits[..|bits| - 1];
      BitsValueBits(front);
      assert bits == front + [bits[|bits| - 1]];
    }
  }

  // ---------------------------------------------------------------------
  // Packets
  // ---------------------------------------------------------------------

  datatype Op = Sum | Product | Minimum | Maximum | GreaterThan | LessThan | EqualTo

  /** A literal keeps its nibbles; an operator keeps its children in order. */
  datatype Kind = Literal(nibbles: seq<Bit>) | Operator(op: Op, children: seq<Packet>)

  /** A decoded packet and the number of bits it took. */
  datatype Packet = Packet(version: nat, kind: Kind, size: nat)

  /** `bits[i] << 2 | bits[i + 1] << 1 | bits[i + 2]`; the shifted bits never overlap, so `|` adds. */
  function Field3(bits: seq<Bit>, i: nat): (v: nat)
    requires i + 3 <= |bits|
    ensures v < 8
  {
    4 * (bits[i] as nat) + 2 * (bits[i + 1] as nat) + bits[i + 2]
  }

  /** The three bits read as a header field are their binary value. */
  lemma Field3Value(bits: seq<Bit>, i: nat)
    requires i + 3 <= |bits|
    ensures Field3(bits, i) == BitsToVal(bits[i..i + 3])
  {
    var s := bits[i..i + 3];
    var a: nat, b: nat := s[0], s[1];
    assert BitsToVal(s[..1]) == a by {
      assert s[..1][..0] == [];
    }
    assert BitsToVal(s[..2]) == 2 * a + b by {
      assert s[..2][..1] == s[..1];
    }
    assert s[..3] == s;
  }

  /** The operator of each type id other than 4, the literal's. */
  function OpOf(typeId: nat): Op
    requires typeId < 8 && typeId != 4
  {
    match typeId
    case 0 => Sum
    case 1 => Product
    case 2 => Minimum
    case 3 => Maximum
    case 5 => GreaterThan
    case 6 => LessThan
    case 7 => EqualTo
  }

  // A call `Packet::new(bits[from..to].to_vec())` copies part of the
  // transmission into a vector of its own. The model reads the same bits in
  // place, as the window from `start` to `end` of the whole transmission:
  // an index `i` of the copy is `start + i` here, and indexing past the
  // copy's end is going past `end`.

  /**
   * The literal loop of `Packet::new`: from `offset`, take the nibble after
   * each lead bit until a lead bit is 0. `None` where the source would index
   * past `end`.
   */
  function Groups(bits: seq<Bit>, offset: nat, end: nat): (r: Option<(seq<Bit>, nat)>)
    requires end <= |bits|
    ensures r.Some? ==> offset + 5 <= r.value.1 <= end
    ensures r.Some? ==> |r.value.0| % 4 == 0 && r.value.1 == offset + 5 * (|r.value.0| / 4)
    decreases end - offset
  {
    if offset + 5 > end then None
    else
      var nibble := bits[offset + 1..offset + 5];
      if bits[offset] == 0 then Some((nibble, offset + 5))
      else
        match Groups(bits, offset + 5, end)
        case None => None
        case Some((rest, stop)) => Some((nibble + rest, stop))
  }

  /**
   * `Packet::new` on the bits from `start` to `end`: `None` exactly where the
   * source would panic by indexing or slicing past `end`. The size counts
   * from `start`.
   */
  function DecodeAt(bits: seq<Bit>, start: nat, end: nat): (r: Option<Packet>)
    requires start <= end <= |bits|
    ensures r.Some? ==> 11 <= r.value.size <= end - start
    decreases end - start, 1
  {
    if end - start < 6 then None
    else
      var version, typeId := Field3(bits, start), Field3(bits, start + 3);
      if typeId == 4 then
        match Groups(bits, start + 6, end)
        case None => None
        case Some((value, stop)) => Some(Packet(version, Literal(value), stop - start))
      else OperatorAt(bits, start, end, version, OpOf(typeId))
  }

  /** The operator branch of `Packet::new`, after the header: bit 6 picks the length type. */
  function OperatorAt(bits: seq<Bit>, start: nat, end: nat, version: nat, op: Op): (r: Option<Packet>)
    requires start + 6 <= end <= |bits|
    ensures r.Some? ==> 18 <= r.value.size <= end - start
    decreases end - start, 0
  {
    if end - start < 7 then None
    else if bits[start + 6] == 1 then
      if end - start < 18 then None
      else
        match Counted(bits, start + 18, end, BitsToVal(bits[start + 7..start + 18]))
        case None => None
        case Some((children, stop)) => Some(Packet(version, Operator(op, children), stop - start))
    else if end - start < 22 then None
    else
      match Bounded(bits, start + 22, start + 22 + BitsToVal(bits[start + 7..start + 22]), end)
      case None => None
      case Some((children, stop)) => Some(Packet(version, Operator(op, children), stop - start))
  }

  /** `Packet::new(bits)` on a whole transmission. */
  function Decode(bits: seq<Bit>): Option<Packet>
  {
    DecodeAt(bits, 0, |bits|)
  }

  /** Length type 1: `n` more children, each decoded from `offset` to `end`, the end of the parent's bits. */
  function Counted(bits: seq<Bit>, offset: nat, end: nat, n: nat): (r: Option<(seq<Packet>, nat)>)
    requires offset <= end <= |bits|
    ensures r.Some? ==> |r.value.0| == n && offset <= r.value.1 <= end
    ensures r.Some? ==> r.value.1 == offset + Sizes(r.value.0)
    decreases end - offset + 1, 0
  {
    if n == 0 then Some(([], offset))
    else
      match DecodeAt(bits, offset, end)
      case None => None
      case Some(child) =>
        match Counted(bits, offset + child.size, end, n - 1)
        case None => None
        case Some((rest, stop)) => SizesCons(child, rest); Some(([child] + rest, stop))
  }

  /**
   * Length type 0: children decoded from `offset` up to `end` only, until
   * `end` is reached; `limit` is the end of the parent's bits, past which
   * the source's slice up to `end` panics.
   */
  function Bounded(bits: seq<Bit>, offset: nat, end: nat, limit: nat): (r: Option<(seq<Packet>, nat)>)
    requires offset <= end && offset <= limit <= |bits|
    ensures r.Some? ==> r.value.1 == end && end <= limit
    ensures r.Some? ==> end == offset + Sizes(r.value.0)
    decreases limit - offset + 1, 0
  {
    if offset == end then Some(([], offset))
    else if end > limit then None
    else
      match DecodeAt(bits, offset, end)
      case None => None
      case Some(child) =>
        match Bounded(bits, offset + child.size, end, limit)
        case None => None
        case Some((rest, stop)) => SizesCons(child, rest); Some(([child] + rest, stop))
  }

  // ---------------------------------------------------------------------
  // Packet::new
  // ---------------------------------------------------------------------

  /** `Packet::new`: the header, then the literal loop or the operator's child loop. */
  method New(bits: seq<Bit>, start: nat, end: nat) returns (p: Packet)
    requires start <= end <= |bits| && DecodeAt(bits, start, end).Some?
    ensures DecodeAt(bits, start, end) == Some(p)
    decreases end - start, 2
  {
    var version, typeId := Field3(bits, start), Field3(bits, start + 3);
    if typeId == 4 {
      var value, offset := NewLiteral(bits, start, end);
      p := Packet(version, Literal(value), offset - start);
    } else if bits[start + 6] == 1 {
      var count := BitsToVal(bits[start + 7..start + 18]);
      var children, offset := NewCounted(bits, start, end, count);
      p := Packet(version, Operator(OpOf(typeId), children), offset - start);
    } else {
      var children, offset := NewBounded(bits, start, end);
      p := Packet(version, Operator(OpOf(typeId), children), offset - start);
    }
  }

  /** The literal branch: extend `value` by the nibble after each lead bit, stopping after a lead bit 0. */
  method NewLiteral(bits: seq<Bit>, start: nat, end: nat) returns (value: seq<Bit>, offset: nat)
    requires end <= |bits| && Groups(bits, start + 6, end).Some?
    ensures Groups(bits, start + 6, end) == Some((value, offset))
  {
    ghost var all, stop := Groups(bits, start + 6, end).value.0, Groups(bits, start + 6, end).value.1;
    offset := start + 6;
    value := [];
    assert value + all == all;
    while true
      invariant GroupsRemain(bits, offset, end, value, all, stop)
      decreases end - offset
    {
      var nibble := bits[offset + 1..offset + 5];
      GroupsStep(bits, offset, end, value, all, stop);
      value := value + nibble;
      offset := offset + 5;
      if bits[offset - 5] == 0 {
        break;
      }
    }
  }

  /** The groups from `offset` on complete `value` to `all`, ending at `stop`. */
  predicate GroupsRemain(bits: seq<Bit>, offset: nat, end: nat, value: seq<Bit>, all: seq<Bit>, stop: nat)
    requires end <= |bits|
  {
    Groups(bits, offset, end).Some? && Groups(bits, offset, end).value.1 == stop
    && value + Groups(bits, offset, end).value.0 == all
  }

  /** One more group: its nibble joins the value; a lead bit 0 ends the literal there. */
  lemma GroupsStep(bits: seq<Bit>, offset: nat, end: nat, value: seq<Bit>, all: seq<Bit>, stop: nat)
    requires end <= |bits| && GroupsRemain(bits, offset, end, value, all, stop)
    ensures offset + 5 <= end
    ensures bits[offset] == 0 ==> value + bits[offset + 1..offset + 5] == all && offset + 5 == stop
    ensures bits[offset] == 1 ==> GroupsRemain(bits, offset + 5, end, value + bits[offset + 1..offset + 5], all, stop)
  {
    var nibble := bits[offset + 1..offset + 5];
    if bits[offset] == 1 {
      var rest := Groups(bits, offset + 5, end).value.0;
      assert Groups(bits, offset, end).value.0 == nibble + rest;
      assert value + (nibble + rest) == (value + nibble) + rest;
    }
  }

  /** Length type 1: read the 11-bit count, then decode that many children one after the other. */
  method NewCounted(bits: seq<Bit>, start: nat, end: nat, count: nat) returns (children: seq<Packet>, offset: nat)
    requires start + 18 <= end <= |bits| && Counted(bits, start + 18, end, count).Some?
    ensures Counted(bits, start + 18, end, count) == Some((children, offset))
    decreases end - start, 1
  {
    ghost var all, stop := Counted(bits, start + 18, end, count).value.0, Counted(bits, start + 18, end, count).value.1;
    offset := start + 18;
    children := [];
    ghost var left := count;
    CountedStart(bits, offset, end, count, all, stop);
    while |children| < count
      invariant |children| + left == count && start + 18 <= offset <= end
      invariant Remains(bits, offset, end, left, children, all, stop)
      decreases left
    {
      left := left - 1;
      children, offset := NextCounted(bits, offset, end, left, children, all, stop);
    }
    CountedDone(bits, offset, end, children, all, stop);
  }

  /** The children from `offset` on, `left` of them, complete `children` to `all`, ending at `stop`. */
  predicate Remains(bits: seq<Bit>, offset: nat, end: nat, left: nat, children: seq<Packet>, all: seq<Packet>, stop: nat)
    requires offset <= end <= |bits|
  {
    Counted(bits, offset, end, left).Some? && Counted(bits, offset, end, left).value.1 == stop
    && children + Counted(bits, offset, end, left).value.0 == all
  }

  lemma CountedStart(bits: seq<Bit>, offset: nat, end: nat, count: nat, all: seq<Packet>, stop: nat)
    requires offset <= end <= |bits| && Counted(bits, offset, end, count) == Some((all, stop))
    ensures Remains(bits, offset, end, count, [], all, stop)
  {
    assert [] + all == all;
  }

  /** With no children left, the children decoded are all of them and the offset is where they stop. */
  lemma CountedDone(bits: seq<Bit>, offset: nat, end: nat, children: seq<Packet>, all: seq<Packet>, stop: nat)
    requires offset <= end <= |bits| && Remains(bits, offset, end, 0, children, all, stop)
    ensures children == all && offset == stop
  {
    assert children + [] == children;
  }

  /** One pass of the length type 1 loop: decode the child at `offset`. */
  method NextCounted(bits: seq<Bit>, offset: nat, end: nat, ghost n: nat, children: seq<Packet>, ghost all: seq<Packet>, ghost stop: nat)
    returns (children': seq<Packet>, offset': nat)
    requires offset <= end <= |bits| && Remains(bits, offset, end, n + 1, children, all, stop)
    ensures |children'| == |children| + 1 && offset <= offset' <= end
    ensures Remains(bits, offset', end, n, children', all, stop)
    decreases end - offset + 1, 0
  {
    CountedNext(bits, offset, end, n, children, all, stop);
    var child := New(bits, offset, end);
    CountedStep(bits, offset, end, n, child, children, all, stop);
    children', offset' := children + [child], offset + child.size;
  }

  /** While children remain under length type 1, the next one decodes. */
  lemma CountedNext(bits: seq<Bit>, offset: nat, end: nat, n: nat, children: seq<Packet>, all: seq<Packet>, stop: nat)
    requires offset <= end <= |bits| && Remains(bits, offset, end, n + 1, children, all, stop)
    ensures DecodeAt(bits, offset, end).Some?
  {
  }

  /** One more child under length type 1: the next child, then the others after it. */
  lemma CountedStep(bits: seq<Bit>, offset: nat, end: nat, n: nat, child: Packet, children: seq<Packet>, all: seq<Packet>, stop: nat)
    requires offset <= end <= |bits| && Remains(bits, offset, end, n + 1, children, all, stop)
    requires DecodeAt(bits, offset, end) == Some(child)
    ensures offset + child.size <= end && Remains(bits, offset + child.size, end, n, children + [child], all, stop)
  {
    var rest := Counted(bits, offset + child.size, end, n).value.0;
    assert Counted(bits, offset, end, n + 1).value.0 == [child] + rest;
    assert children + ([child] + rest) == (children + [child]) + rest;
  }

  /** Length type 0: read the 15-bit length, then decode children from inside that many bits until they are used up. */
  method NewBounded(bits: seq<Bit>, start: nat, limit: nat) returns (children: seq<Packet>, offset: nat)
    requires start + 22 <= limit <= |bits|
    requires Bounded(bits, start + 22, start + 22 + BitsToVal(bits[start + 7..start + 22]), limit).Some?
    ensures Bounded(bits, start + 22, start + 22 + BitsToVal(bits[start + 7..start + 22]), limit) == Some((children, offset))
    decreases limit - start, 1
  {
    var size := BitsToVal(bits[start + 7..start + 22]);
    offset := start + 22;
    var end := offset + size;
    ghost var all := Bounded(bits, offset, end, limit).value.0;
    children := [];
    assert children + all == all;
    while offset < end
      invariant start + 22 <= offset <= end && offset <= limit
      invariant BoundedRemain(bits, offset, end, limit, children, all)
      decreases end - offset
    {
      var child := NextBounded(bits, offset, end, limit, children, all);
      offset := offset + child.size;
      children := children + [child];
    }
    assert children + Bounded(bits, offset, end, limit).value.0 == children;
  }

  /** The children from `offset` to `end` complete `children` to `all`. */
  predicate BoundedRemain(bits: seq<Bit>, offset: nat, end: nat, limit: nat, children: seq<Packet>, all: seq<Packet>)
    requires offset <= end && offset <= limit <= |bits|
  {
    Bounded(bits, offset, end, limit).Some? && children + Bounded(bits, offset, end, limit).value.0 == all
  }

  /** One pass of the length type 0 loop: decode the child at `offset`, from the bits up to `end`. */
  method NextBounded(bits: seq<Bit>, offset: nat, end: nat, limit: nat, children: seq<Packet>, ghost all: seq<Packet>)
    returns (child: Packet)
    requires offset < end && offset <= limit <= |bits| && BoundedRemain(bits, offset, end, limit, children, all)
    ensures end <= limit && offset + child.size <= end
    ensures BoundedRemain(bits, offset + child.size, end, limit, children + [child], all)
    decreases limit - offset + 1, 0
  {
    BoundedNext(bits, offset, end, limit, children, all);
    child := New(bits, offset, end);
    BoundedStep(bits, offset, end, limit, child, children, all);
  }

  /** While bits remain under length type 0, the next child decodes from them. */
  lemma BoundedNext(bits: seq<Bit>, offset: nat, end: nat, limit: nat, children: seq<Packet>, all: seq<Packet>)
    requires offset < end && offset <= limit <= |bits| && BoundedRemain(bits, offset, end, limit, children, all)
    ensures end <= limit && DecodeAt(bits, offset, end).Some?
  {
  }

  /** One more child under length type 0: the next child, then the others after it up to `end`. */
  lemma BoundedStep(bits: seq<Bit>, offset: nat, end: nat, limit: nat, child: Packet, children: seq<Packet>, all: seq<Packet>)
    requires offset < end <= limit <= |bits| && BoundedRemain(bits, offset, end, limit, children, all)
    requires DecodeAt(bits, offset, end) == Some(child)
    ensures offset + child.size <= end && BoundedRemain(bits, offset + child.size, end, limit, children + [child], all)
  {
    var rest := Bounded(bits, offset + child.size, end, limit).value.0;
    assert Bounded(bits, offset, end, limit).value.0 == [child] + rest;
    assert children + ([child] + rest) == (children + [child]) + rest;
  }

  // ---------------------------------------------------------------------
  // What a decoded packet is made of
  // ---------------------------------------------------------------------

  /** The header: the version is the first three bits and the packet is a literal exactly when the next three spell 4. */
  lemma DecodeHeader(bits: seq<Bit>, start: nat, end: nat, p: Packet)
    requires start <= end <= |bits| && DecodeAt(bits, start, end) == Some(p)
    ensures p.version == BitsToVal(bits[start..start + 3])
    ensures p.kind.Literal? <==> BitsToVal(bits[start + 3..start + 6]) == 4
  {
    Field3Value(bits, start);
    Field3Value(bits, start + 3);
  }

  /**
   * A literal is `k >= 1` groups of five bits after the header: every lead
   * bit is 1 but the last, which is 0; the nibbles after them, in order,
   * are the value; the packet is `6 + 5k` bits long.
   */
  lemma DecodeLiteral(bits: seq<Bit>, start: nat, end: nat, p: Packet, nibbles: seq<Bit>)
    requires start <= end <= |bits| && DecodeAt(bits, start, end) == Some(p) && p.kind == Literal(nibbles)
    ensures |nibbles| >= 4 && |nibbles| % 4 == 0 && p.size == 6 + 5 * (|nibbles| / 4)
    ensures GroupsAt(bits, start + 6, nibbles)
  {
    Field3Value(bits, start + 3);
    GroupsLayout(bits, start + 6, end, nibbles, start + p.size);
  }

  /**
   * Length type 1: bits 7 to 17 count the children, which are laid end to
   * end from bit 18; the packet ends where the last child does.
   */
  lemma DecodeCounted(bits: seq<Bit>, start: nat, end: nat, p: Packet, op: Op, children: seq<Packet>)
    requires start <= end <= |bits| && DecodeAt(bits, start, end) == Some(p) && p.kind == Operator(op, children)
    requires start + 6 < end && bits[start + 6] == 1
    ensures start + 18 <= end
    ensures |children| == BitsToVal(bits[start + 7..start + 18])
    ensures p.size == 18 + Sizes(children)
  {
    var count := CountedOf(bits, start, end, p, op, children);
  }

  /** Length type 1, continued: each child is decoded from where the one before it stopped, up to the end of the parent's bits. */
  lemma CountedLayout(bits: seq<Bit>, start: nat, end: nat, p: Packet, op: Op, children: seq<Packet>)
    requires start <= end <= |bits| && DecodeAt(bits, start, end) == Some(p) && p.kind == Operator(op, children)
    requires start + 6 < end && bits[start + 6] == 1
    ensures ChildrenAt(bits, start + 18, end, children)
  {
    var count := CountedOf(bits, start, end, p, op, children);
    CountedChildren(bits, start + 18, end, count, children, start + p.size);
  }

  /** The children of a length type 1 packet, as `Counted` reads them. */
  lemma CountedOf(bits: seq<Bit>, start: nat, end: nat, p: Packet, op: Op, children: seq<Packet>) returns (count: nat)
    requires start <= end <= |bits| && DecodeAt(bits, start, end) == Some(p) && p.kind == Operator(op, children)
    requires start + 6 < end && bits[start + 6] == 1
    ensures start + 18 <= end && count == BitsToVal(bits[start + 7..start + 18])
    ensures Counted(bits, start + 18, end, count) == Some((children, start + p.size))
  {
    count := BitsToVal(bits[start + 7..start + 18]);
  }

  /**
   * Length type 0: bits 7 to 21 give the length `L` of the children, which
   * are laid end to end from bit 22 and fill exactly the `L` bits after it,
   * each decoded only from those; the packet is `22 + L` bits long.
   */
  lemma DecodeBounded(bits: seq<Bit>, start: nat, end: nat, p: Packet, op: Op, children: seq<Packet>)
    requires start <= end <= |bits| && DecodeAt(bits, start, end) == Some(p) && p.kind == Operator(op, children)
    requires start + 6 < end && bits[start + 6] == 0
    ensures start + 22 <= end
    ensures p.size == 22 + BitsToVal(bits[start + 7..start + 22]) == 22 + Sizes(children)
    ensures ChildrenAt(bits, start + 22, start + p.size, children)
  {
    var stop := BoundedOf(bits, start, end, p, op, children);
    BoundedChildren(bits, start + 22, stop, end, children);
  }

  /** The children of a length type 0 packet, as `Bounded` reads them. */
  lemma BoundedOf(bits: seq<Bit>, start: nat, end: nat, p: Packet, op: Op, children: seq<Packet>) returns (stop: nat)
    requires start <= end <= |bits| && DecodeAt(bits, start, end) == Some(p) && p.kind == Operator(op, children)
    requires start + 6 < end && bits[start + 6] == 0
    ensures start + 22 <= end && stop == start + p.size == start + 22 + BitsToVal(bits[start + 7..start + 22])
    ensures start + 22 <= stop <= end && Bounded(bits, start + 22, stop, end) == Some((children, stop))
  {
    stop := start + p.size;
  }

  /** Group `j` of `k` from `offset`: lead bit 1 unless it is the last, then its nibble as part `j` of `value`. */
  predicate Group(bits: seq<Bit>, offset: nat, j: nat, value: seq<Bit>, k: nat)
  {
    j < k && offset + 5 * j + 5 <= |bits| && 4 * j + 4 <= |value|
    && bits[offset + 5 * j] == (if j + 1 < k then 1 else 0)
    && value[4 * j..4 * j + 4] == bits[offset + 5 * j + 1..offset + 5 * j + 5]
  }

  /** All `|value| / 4` groups from `offset` make up `value`. */
  predicate GroupsAt(bits: seq<Bit>, offset: nat, value: seq<Bit>)
  {
    forall j :: 0 <= j < |value| / 4 ==> Group(bits, offset, j, value, |value| / 4)
  }

  /** The groups `Groups` reads from `offset` make up the value it returns. */
  lemma {:induction false} GroupsLayout(bits: seq<Bit>, offset: nat, end: nat, value: seq<Bit>, stop: nat)
    requires end <= |bits| && Groups(bits, offset, end) == Some((value, stop))
    ensures GroupsAt(bits, offset, value)
    decreases end - offset
  {
    var nibble := bits[offset + 1..offset + 5];
    if bits[offset] == 0 {
      assert value == nibble;
      assert Group(bits, offset, 0, value, 1);
    } else {
      var rest, stop' := Groups(bits, offset + 5, end).value.0, Groups(bits, offset + 5, end).value.1;
      GroupsLayout(bits, offset + 5, end, rest, stop');
      assert value == nibble + rest;
      GroupsShift(bits, offset, offset + 5, nibble, rest);
    }
  }

  /** Putting one group with lead bit 1 in front of groups laid out after it. */
  lemma GroupsShift(bits: seq<Bit>, offset: nat, next: nat, nibble: seq<Bit>, rest: seq<Bit>)
    requires next == offset + 5 <= |bits| && bits[offset] == 1 && nibble == bits[offset + 1..offset + 5]
    requires |rest| >= 4 && |rest| % 4 == 0 && GroupsAt(bits, next, rest)
    ensures GroupsAt(bits, offset, nibble + rest)
  {
    var value := nibble + rest;
    var k, m := |rest| / 4, |value| / 4;
    assert m == k + 1;
    forall j | 0 <= j < m ensures Group(bits, offset, j, value, m) {
      if j == 0 {
        assert value[0..4] == nibble;
      } else {
        assert Group(bits, next, j - 1, rest, k);
        assert value[4 * j..4 * j + 4] == rest[4 * (j - 1)..4 * (j - 1) + 4];
      }
    }
  }

  /** The bits all the packets of `ps` take, one after the other. */
  function Sizes(ps: seq<Packet>): nat
  {
    if ps == [] then 0 else ps[0].size + Sizes(ps[1..])
  }

  /** Child `i` was decoded from the bits right after the children before it, up to `end`. */
  predicate ChildAt(bits: seq<Bit>, offset: nat, end: nat, children: seq<Packet>, i: nat)
  {
    i < |children| && offset + Sizes(children[..i]) <= end <= |bits|
    && DecodeAt(bits, offset + Sizes(children[..i]), end) == Some(children[i])
  }

  /** The children were decoded one after the other from `offset`, each from where the one before it stopped, up to `end`. */
  predicate ChildrenAt(bits: seq<Bit>, offset: nat, end: nat, children: seq<Packet>)
    decreases |children|
  {
    children == []
    || (offset <= end <= |bits| && DecodeAt(bits, offset, end) == Some(children[0])
        && ChildrenAt(bits, offset + children[0].size, end, children[1..]))
  }

  /** The same layout by index: child `i` starts after the bits of the `i` children before it. */
  lemma {:induction false} ChildrenIndexed(bits: seq<Bit>, offset: nat, end: nat, children: seq<Packet>)
    requires ChildrenAt(bits, offset, end, children)
    ensures forall i :: 0 <= i < |children| ==> ChildAt(bits, offset, end, children, i)
    decreases |children|
  {
    if children != [] {
      var child, rest := children[0], children[1..];
      var next := offset + child.size;
      assert children == [child] + rest;
      ChildrenIndexed(bits, next, end, rest);
      forall i | 0 <= i < |children| ensures ChildAt(bits, offset, end, children, i) {
        if i == 0 {
          assert children[..0] == [];
        } else {
          ChildLater(bits, offset, next, end, child, rest, i);
        }
      }
    }
  }

  /** Length type 1 lays the children end to end from `offset`, each decoded from its start up to `end`, the end of the parent's bits. */
  lemma {:induction false} CountedChildren(bits: seq<Bit>, offset: nat, end: nat, n: nat, children: seq<Packet>, stop: nat)
    requires offset <= end <= |bits|
    ensures Counted(bits, offset, end, n) == Some((children, stop)) ==> ChildrenAt(bits, offset, end, children)
    decreases n
  {
    if n > 0 && Counted(bits, offset, end, n) == Some((children, stop)) {
      var child, rest := CountedFirst(bits, offset, end, n, children, stop);
      var next := offset + child.size;
      CountedChildren(bits, next, end, n - 1, rest, stop);
      ChildrenShift(bits, offset, next, end, child, rest);
    }
  }

  /** Length type 0 lays the children end to end from `offset`, each decoded from its start up to `end`. */
  lemma {:induction false} BoundedChildren(bits: seq<Bit>, offset: nat, end: nat, limit: nat, children: seq<Packet>)
    requires offset <= end <= limit <= |bits| && Bounded(bits, offset, end, limit) == Some((children, end))
    ensures ChildrenAt(bits, offset, end, children)
    decreases end - offset
  {
    if offset < end {
      var child, rest := BoundedFirst(bits, offset, end, limit, children);
      var next := offset + child.size;
      BoundedChildren(bits, next, end, limit, rest);
      ChildrenShift(bits, offset, next, end, child, rest);
    }
  }

  lemma SizesCons(child: Packet, rest: seq<Packet>)
    ensures Sizes([child] + rest) == child.size + Sizes(rest)
  {
    assert ([child] + rest)[1..] == rest;
  }

  /** The first child under length type 1, and the ones after it. */
  lemma CountedFirst(bits: seq<Bit>, offset: nat, end: nat, n: nat, children: seq<Packet>, stop: nat)
    returns (child: Packet, rest: seq<Packet>)
    requires offset <= end <= |bits| && n > 0 && Counted(bits, offset, end, n) == Some((children, stop))
    ensures DecodeAt(bits, offset, end) == Some(child) && children == [child] + rest
    ensures offset + child.size <= end && Counted(bits, offset + child.size, end, n - 1) == Some((rest, stop))
  {
    child := DecodeAt(bits, offset, end).value;
    rest := Counted(bits, offset + child.size, end, n - 1).value.0;
  }

  /** The first child under length type 0, and the ones after it. */
  lemma BoundedFirst(bits: seq<Bit>, offset: nat, end: nat, limit: nat, children: seq<Packet>)
    returns (child: Packet, rest: seq<Packet>)
    requires offset < end <= limit <= |bits| && Bounded(bits, offset, end, limit) == Some((children, end))
    ensures DecodeAt(bits, offset, end) == Some(child) && children == [child] + rest
    ensures offset + child.size <= end && Bounded(bits, offset + child.size, end, limit) == Some((rest, end))
  {
    child := DecodeAt(bits, offset, end).value;
    rest := Bounded(bits, offset + child.size, end, limit).value.0;
  }

  /** Putting one child in front of children laid out after it. */
  lemma ChildrenShift(bits: seq<Bit>, offset: nat, next: nat, end: nat, child: Packet, rest: seq<Packet>)
    requires next == offset + child.size && offset <= end <= |bits| && DecodeAt(bits, offset, end) == Some(child)
    requires ChildrenAt(bits, next, end, rest)
    ensures ChildrenAt(bits, offset, end, [child] + rest)
  {
    assert ([child] + rest)[1..] == rest;
  }

  /** Child `i > 0` of `[child] + rest` is child `i - 1` of `rest`, laid out from `next`. */
  lemma ChildLater(bits: seq<Bit>, offset: nat, next: nat, end: nat, child: Packet, rest: seq<Packet>, i: nat)
    requires next == offset + child.size && 0 < i <= |rest| && ChildAt(bits, next, end, rest, i - 1)
    ensures ChildAt(bits, offset, end, [child] + rest, i)
  {
    var children := [child] + rest;
    SizesFront(child, rest, i);
    assert children[i] == rest[i - 1];
  }

  /** The first `i` of `[child] + rest` take the child's bits and those of the first `i - 1` of `rest`. */
  lemma SizesFront(child: Packet, rest: seq<Packet>, i: nat)
    requires 1 <= i <= |rest| + 1
    ensures Sizes(([child] + rest)[..i]) == child.size + Sizes(rest[..i - 1])
  {
    var front := ([child] + rest)[..i];
    assert front[0] == child && front[1..] == rest[..i - 1];
  }

  // ---------------------------------------------------------------------
  // version_sum
  // ---------------------------------------------------------------------

  /** `version_sum`: the packet's own version plus the sums of its children. */
  function VersionSum(p: Packet): nat
    decreases p
  {
    p.version + (if p.kind.Operator? then VersionSums(p.kind.children) else 0)
  }

  function VersionSums(ps: seq<Packet>): nat
    decreases ps
  {
    if ps == [] then 0 else VersionSum(ps[0]) + VersionSums(ps[1..])
  }

  /** Every packet of the hierarchy, each before the packets inside it. */
  function Flatten(p: Packet): (all: seq<Packet>)
    ensures |all| >= 1 && all[0] == p
    decreases p
  {
    [p] + (if p.kind.Operator? then FlattenAll(p.kind.children) else [])
  }

  function FlattenAll(ps: seq<Packet>): seq<Packet>
    decreases ps
  {
    if ps == [] then [] else Flatten(ps[0]) + FlattenAll(ps[1..])
  }

  /** The sum of the versions of a list of packets. */
  function Versions(ps: seq<Packet>): nat
  {
    if ps == [] then 0 else ps[0].version + Versions(ps[1..])
  }

  lemma {:induction false} VersionsAppend(a: seq<Packet>, b: seq<Packet>)
    ensures Versions(a + b) == Versions(a) + Versions(b)
  {
    if a != [] {
      assert (a + b)[1..] == a[1..] + b;
      VersionsAppend(a[1..], b);
    } else {
      assert a + b == b;
    }
  }

  /** `version_sum` adds up the version of every packet in the hierarchy, once each. */
  lemma {:induction false} VersionSumFlat(p: Packet)
    ensures VersionSum(p) == Versions(Flatten(p))
    decreases p
  {
    var inner := if p.kind.Operator? then FlattenAll(p.kind.children) else [];
    if p.kind.Operator? {
      VersionSumsFlat(p.kind.children);
    }
    VersionsAppend([p], inner);
    assert Versions([p]) == p.version;
  }

  lemma {:induction false} VersionSumsFlat(ps: seq<Packet>)
    ensures VersionSums(ps) == Versions(FlattenAll(ps))
    decreases ps
  {
    if ps != [] {
      VersionSumFlat(ps[0]);
      VersionSumsFlat(ps[1..]);
      VersionsAppend(Flatten(ps[0]), FlattenAll(ps[1..]));
    }
  }

  // ---------------------------------------------------------------------
  // value
  // ---------------------------------------------------------------------

  /**
   * Where `value` does not panic: a literal has bits to read, a minimum or
   * maximum has a child, a comparison has two, and every child the operator
   * looks at can be evaluated (a comparison looks only at its first two).
   */
  predicate Evaluable(p: Packet)
    decreases p
  {
    match p.kind
    case Literal(nibbles) => |nibbles| > 0
    case Operator(op, children) =>
      if op == GreaterThan || op == LessThan || op == EqualTo then
        |children| >= 2 && Evaluable(children[0]) && Evaluable(children[1])
      else
        (op == Minimum || op == Maximum ==> |children| > 0)
        && forall i :: 0 <= i < |children| ==> Evaluable(children[i])
  }

  /** `value`: a literal's number, or the operator applied to its children's values. */
  function Value(p: Packet): nat
    requires Evaluable(p)
    decreases p
  {
    match p.kind
    case Literal(nibbles) => BitsToVal(nibbles)
    case Operator(op, children) =>
      match op
      case Sum => SumOf(Values(children))
      case Product => ProductOf(Values(children))
      case Minimum => MinOf(Values(children))
      case Maximum => MaxOf(Values(children))
      case GreaterThan => if Value(children[0]) > Value(children[1]) then 1 else 0
      case LessThan => if Value(children[0]) < Value(children[1]) then 1 else 0
      case EqualTo => if Value(children[0]) == Value(children[1]) then 1 else 0
  }

  /** The values of the packets, in order. */
  function Values(ps: seq<Packet>): (vs: seq<nat>)
    requires forall i :: 0 <= i < |ps| ==> Evaluable(ps[i])
    ensures |vs| == |ps| && forall i :: 0 <= i < |ps| ==> vs[i] == Value(ps[i])
    decreases ps
  {
    if ps == [] then [] else [Value(ps[0])] + Values(ps[1..])
  }

  function SumOf(s: seq<nat>): nat
  {
    if s == [] then 0 else s[0] + SumOf(s[1..])
  }

  /** The fold from 1 that multiplies in each value. */
  function ProductOf(s: seq<nat>): nat
  {
    if s == [] then 1 else s[0] * ProductOf(s[1..])
  }

  /** `min().unwrap()`: the least of the values, which must exist. */
  function MinOf(s: seq<nat>): (m: nat)
    requires |s| > 0
    ensures (exists i :: 0 <= i < |s| && s[i] == m) && forall i :: 0 <= i < |s| ==> m <= s[i]
  {
    if |s| == 1 then s[0]
    else
      var rest := MinOf(s[1..]);
      assert forall i :: 1 <= i < |s| ==> s[i] == s[1..][i - 1];
      if s[0] <= rest then s[0] else rest
  }

  /** `max().unwrap()`: the greatest of the values, which must exist. */
  function MaxOf(s: seq<nat>): (m: nat)
    requires |s| > 0
    ensures (exists i :: 0 <= i < |s| && s[i] == m) && forall i :: 0 <= i < |s| ==> s[i] <= m
  {
    if |s| == 1 then s[0]
    else
      var rest := MaxOf(s[1..]);
      assert forall i :: 1 <= i < |s| ==> s[i] == s[1..][i - 1];
      if s[0] >= rest then s[0] else rest
  }

  /** Summing a concatenation sums the parts. */
  lemma {:induction false} SumOfAppend(a: seq<nat>, b: seq<nat>)
    ensures SumOf(a + b) == SumOf(a) + SumOf(b)
  {
    if a == [] {
      assert a + b == b;
    } else {
      assert (a + b)[1..] == a[1..] + b;
      SumOfAppend(a[1..], b);
    }
  }

  /** The product is 0 exactly when one of the values is 0. */
  lemma {:induction false} ProductZero(s: seq<nat>)
    ensures ProductOf(s) == 0 <==> exists i :: 0 <= i < |s| && s[i] == 0
  {
    if s != [] {
      ProductZero(s[1..]);
      assert forall i :: 1 <= i < |s| ==> s[i] == s[1..][i - 1];
      if s[0] != 0 && ProductOf(s[1..]) != 0 {
        Positive(s[0], ProductOf(s[1..]));
      }
    }
  }

  lemma Positive(a: nat, b: nat)
    requires a > 0 && b > 0
    ensures a * b > 0
  {
  }

  /** The comparison operators give 1 or 0, on their first two children only. */
  lemma ValueCompare(p: Packet)
    requires Evaluable(p) && p.kind.Operator? && p.kind.op in {GreaterThan, LessThan, EqualTo}
    ensures Value(p) <= 1
    ensures p.kind.op == GreaterThan ==> (Value(p) == 1 <==> Value(p.kind.children[0]) > Value(p.kind.children[1]))
    ensures p.kind.op == LessThan ==> (Value(p) == 1 <==> Value(p.kind.children[0]) < Value(p.kind.children[1]))
    ensures p.kind.op == EqualTo ==> (Value(p) == 1 <==> Value(p.kind.children[0]) == Value(p.kind.children[1]))
  {
  }

  // ---------------------------------------------------------------------
  // main
  // ---------------------------------------------------------------------

  /** Part 1 sums the versions of the transmission's packet, part 2 evaluates it. */
  method Solve(lines: seq<string>) returns (part1: nat, part2: nat)
    requires |lines| > 0 && Decode(Parse(lines)).Some? && Evaluable(Decode(Parse(lines)).value)
    ensures part1 == VersionSum(Decode(Parse(lines)).value) && part2 == Value(Decode(Parse(lines)).value)
  {
    var bits := Parse(lines);
    var packet := New(bits, 0, |bits|);
    part1 := VersionSum(packet);
    part2 := Value(packet);
  }

  // ---------------------------------------------------------------------
  // Worked examples
  // ---------------------------------------------------------------------

  /** `D2FE28`: a literal packet of version 6 whose value is 2021. */
  const Sample: seq<Bit> := [1,1,0,1,0,0,1,0,1,1,1,1,1,1,1,0,0,0,1,0,1,0,0,0]

  /** A hexadecimal digit at the end adds its nibble after the bits of the rest. */
  lemma HexBitsSnoc(line: string, c: char, n: nat)
    requires HexDigit(c) == Some(n)
    ensures HexBits(line + [c]) == HexBits(line) + Nibble(n)
  {
    assert (line + [c])[..|line|] == line;
  }

  /** One more hexadecimal digit at the end, with its four bits written out. */
  lemma HexBitsStep(line: string, c: char, n: nat, before: seq<Bit>, nibble: seq<Bit>)
    requires HexBits(line) == before && HexDigit(c) == Some(n) && Nibble(n) == nibble
    ensures HexBits(line + [c]) == before + nibble
  {
    HexBitsSnoc(line, c, n);
  }

  lemma SampleBits()
    ensures HexBits("D2FE28") == Sample
  {
    SampleFront();
    assert "D2FE" == "D2F" + ['E'] && "D2FE2" == "D2FE" + ['2'] && "D2FE28" == "D2FE2" + ['8'];
    HexBitsStep("D2F", 'E', 14, [1,1,0,1,0,0,1,0,1,1,1,1], [1,1,1,0]);
    HexBitsStep("D2FE", '2', 2, [1,1,0,1,0,0,1,0,1,1,1,1,1,1,1,0], [0,0,1,0]);
    HexBitsStep("D2FE2", '8', 8, [1,1,0,1,0,0,1,0,1,1,1,1,1,1,1,0,0,0,1,0], [1,0,0,0]);
  }

  lemma SampleFront()
    ensures HexBits("D2F") == [1,1,0,1,0,0,1,0,1,1,1,1]
  {
    assert "D" == "" + ['D'] && "D2" == "D" + ['2'] && "D2F" == "D2" + ['F'];
    HexBitsStep("", 'D', 13, [], [1,1,0,1]);
    HexBitsStep("D", '2', 2, [1,1,0,1], [0,0,1,0]);
    HexBitsStep("D2", 'F', 15, [1,1,0,1,0,0,1,0], [1,1,1,1]);
  }

  lemma SampleDecodes()
    ensures Decode(Sample) == Some(Packet(6, Literal([0,1,1,1,1,1,1,0,0,1,0,1]), 21))
  {
    assert Field3(Sample, 0) == 6;
    assert Field3(Sample, 3) == 4;
    SampleGroups();
  }

  lemma SampleGroups()
    ensures Groups(Sample, 6, 24) == Some(([0,1,1,1,1,1,1,0,0,1,0,1], 21))
  {
    assert Sample[17..21] == [0,1,0,1];
    assert Sample[12..16] == [1,1,1,0];
    assert Sample[7..11] == [0,1,1,1];
    assert Groups(Sample, 16, 24) == Some(([0,1,0,1], 21));
    assert [1,1,1,0] + [0,1,0,1] == [1,1,1,0,0,1,0,1];
    assert Groups(Sample, 11, 24) == Some(([1,1,1,0,0,1,0,1], 21));
    assert [0,1,1,1] + [1,1,1,0,0,1,0,1] == [0,1,1,1,1,1,1,0,0,1,0,1];
  }

  /** A nibble written out has the value it spells. */
  lemma NibbleBits(n: nat, nibble: seq<Bit>)
    requires n < 16 && Nibble(n) == nibble
    ensures BitsToVal(nibble) == n
  {
    NibbleValue(n);
  }

  /** Four more bits multiply the value so far by 16 and add theirs. */
  lemma AppendNibble(a: seq<Bit>, x: nat, nibble: seq<Bit>, y: nat)
    requires BitsToVal(a) == x && |nibble| == 4 && BitsToVal(nibble) == y
    ensures BitsToVal(a + nibble) == 16 * x + y
  {
    BitsToValAppend(a, nibble);
    assert Pow2(4) == 16;
  }

  lemma SampleValue()
    ensures Value(Packet(6, Literal([0,1,1,1,1,1,1,0,0,1,0,1]), 21)) == 2021
  {
    NibbleBits(7, [0,1,1,1]);
    NibbleBits(14, [1,1,1,0]);
    NibbleBits(5, [0,1,0,1]);
    AppendNibble([0,1,1,1], 7, [1,1,1,0], 14);
    assert [0,1,1,1] + [1,1,1,0] == [0,1,1,1,1,1,1,0];
    AppendNibble([0,1,1,1,1,1,1,0], 126, [0,1,0,1], 5);
    assert [0,1,1,1,1,1,1,0] + [0,1,0,1] == [0,1,1,1,1,1,1,0,0,1,0,1];
  }

  /** `38006F45291200`: a less-than operator, length type 0, over the literals 10 and 20. */
  const Compare: seq<Bit> := [0,0,1,1,1,0,0,0,0,0,0,0,0,0,0,0] + [0,1,1,0,1,1,1,1,0,1,0,0,0,1,0,1]
    + [0,0,1,0,1,0,0,1,0,0,0,1,0,0,1,0] + [0,0,0,0,0,0,0,0]
  const Ten := Packet(6, Literal([1,0,1,0]), 11)
  const Twenty := Packet(2, Literal([0,0,0,1,0,1,0,0]), 16)

  lemma CompareTen()
    ensures DecodeAt(Compare, 22, 49) == Some(Ten)
  {
    assert Field3(Compare, 22) == 6 && Field3(Compare, 25) == 4;
    assert Compare[29..33] == [1,0,1,0];
    assert Groups(Compare, 28, 49) == Some(([1,0,1,0], 33));
  }

  lemma CompareTwenty()
    ensures DecodeAt(Compare, 33, 49) == Some(Twenty)
  {
    assert Field3(Compare, 33) == 2 && Field3(Compare, 36) == 4;
    assert Compare[40..44] == [0,0,0,1] && Compare[45..49] == [0,1,0,0];
    assert Groups(Compare, 44, 49) == Some(([0,1,0,0], 49));
    assert [0,0,0,1] + [0,1,0,0] == [0,0,0,1,0,1,0,0];
    assert Groups(Compare, 39, 49) == Some(([0,0,0,1,0,1,0,0], 49));
  }

  lemma CompareLength()
    ensures BitsToVal(Compare[7..22]) == 27
  {
    assert Compare[7..22] == [0,0,0,0,0,0,0,0,0,0,1,1,0,1,1];
    LengthBits();
  }

  lemma LengthBits()
    ensures BitsToVal([0,0,0,0,0,0,0,0,0,0,1,1,0,1,1]) == 27
  {
    assert BitsToVal([0,0,0]) == 0 by {
      assert [0,0,0][..2] == [0,0] && [0,0][..1] == [0] && [0][..0] == [];
    }
    NibbleBits(0, [0,0,0,0]);
    NibbleBits(1, [0,0,0,1]);
    NibbleBits(11, [1,0,1,1]);
    AppendNibble([0,0,0], 0, [0,0,0,0], 0);
    assert [0,0,0] + [0,0,0,0] == [0,0,0,0,0,0,0];
    AppendNibble([0,0,0,0,0,0,0], 0, [0,0,0,1], 1);
    assert [0,0,0,0,0,0,0] + [0,0,0,1] == [0,0,0,0,0,0,0,0,0,0,1];
    AppendNibble([0,0,0,0,0,0,0,0,0,0,1], 1, [1,0,1,1], 11);
    assert [0,0,0,0,0,0,0,0,0,0,1] + [1,0,1,1] == [0,0,0,0,0,0,0,0,0,0,1,1,0,1,1];
  }

  lemma CompareChildren()
    ensures Bounded(Compare, 22, 49, 56) == Some(([Ten, Twenty], 49))
  {
    CompareTen();
    CompareTwenty();
    assert Bounded(Compare, 49, 49, 56) == Some(([], 49));
    assert [Twenty] + [] == [Twenty];
    assert Bounded(Compare, 33, 49, 56) == Some(([Twenty], 49));
    assert [Ten] + [Twenty] == [Ten, Twenty];
  }

  lemma CompareDecodes()
    ensures Decode(Compare) == Some(Packet(1, Operator(LessThan, [Ten, Twenty]), 49))
  {
    assert Field3(Compare, 0) == 1 && Field3(Compare, 3) == 6 && Compare[6] == 0;
    CompareLength();
    CompareChildren();
  }

  lemma CompareVersions()
    ensures VersionSum(Packet(1, Operator(LessThan, [Ten, Twenty]), 49)) == 9
  {
    assert [Ten, Twenty][1..] == [Twenty] && [Twenty][1..] == [];
    assert VersionSums([Twenty]) == 2;
    assert VersionSums([Ten, Twenty]) == 8;
  }

  lemma CompareValue()
    ensures Value(Packet(1, Operator(LessThan, [Ten, Twenty]), 49)) == 1
  {
    NibbleBits(10, [1,0,1,0]);
    NibbleBits(1, [0,0,0,1]);
    NibbleBits(4, [0,1,0,0]);
    AppendNibble([0,0,0,1], 1, [0,1,0,0], 4);
    assert [0,0,0,1] + [0,1,0,0] == [0,0,0,1,0,1,0,0];
  }

  /** `EE00D40C823060`: a maximum operator, length type 1, over the literals 1, 2 and 3. */
  const Largest: seq<Bit> := [1,1,1,0,1,1,1,0,0,0,0,0,0,0,0,0] + [1,1,0,1,0,1,0,0,0,0,0,0,1,1,0,0]
    + [1,0,0,0,0,0,1,0,0,0,1,1,0,0,0,0] + [0,1,1,0,0,0,0,0]
  const One := Packet(2, Literal([0,0,0,1]), 11)
  const Two := Packet(4, Literal([0,0,1,0]), 11)
  const Three := Packet(1, Literal([0,0,1,1]), 11)

  lemma LargestOne()
    ensures DecodeAt(Largest, 18, 56) == Some(One)
  {
    assert Field3(Largest, 18) == 2 && Field3(Largest, 21) == 4;
    assert Largest[24] == 0 && Largest[25..29] == [0,0,0,1];
  }

  lemma LargestTwo()
    ensures DecodeAt(Largest, 29, 56) == Some(Two)
  {
    assert Field3(Largest, 29) == 4 && Field3(Largest, 32) == 4;
    assert Largest[35] == 0 && Largest[36..40] == [0,0,1,0];
  }

  lemma LargestThree()
    ensures DecodeAt(Largest, 40, 56) == Some(Three)
  {
    assert Field3(Largest, 40) == 1 && Field3(Largest, 43) == 4;
    assert Largest[46] == 0 && Largest[47..51] == [0,0,1,1];
  }

  lemma LargestChildren()
    ensures Counted(Largest, 18, 56, 3) == Some(([One, Two, Three], 51))
  {
    LargestOne();
    LargestTwo();
    LargestThree();
    assert Counted(Largest, 51, 56, 0) == Some(([], 51));
    assert [Three] + [] == [Three];
    assert Counted(Largest, 40, 56, 1) == Some(([Three], 51));
    assert [Two] + [Three] == [Two, Three];
    assert Counted(Largest, 29, 56, 2) == Some(([Two, Three], 51));
    assert [One] + [Two, Three] == [One, Two, Three];
  }

  lemma LargestCount()
    ensures BitsToVal(Largest[7..18]) == 3
  {
    assert Largest[7..18] == [0,0,0,0,0,0,0,0,0,1,1];
    assert BitsToVal([0,0,0]) == 0 by {
      assert [0,0,0][..2] == [0,0] && [0,0][..1] == [0] && [0][..0] == [];
    }
    NibbleBits(0, [0,0,0,0]);
    NibbleBits(3, [0,0,1,1]);
    AppendNibble([0,0,0], 0, [0,0,0,0], 0);
    assert [0,0,0] + [0,0,0,0] == [0,0,0,0,0,0,0];
    AppendNibble([0,0,0,0,0,0,0], 0, [0,0,1,1], 3);
    assert [0,0,0,0,0,0,0] + [0,0,1,1] == [0,0,0,0,0,0,0,0,0,1,1];
  }

  lemma LargestDecodes()
    ensures Decode(Largest) == Some(Packet(7, Operator(Maximum, [One, Two, Three]), 51))
  {
    assert Field3(Largest, 0) == 7 && Field3(Largest, 3) == 3 && Largest[6] == 1;
    LargestCount();
    LargestChildren();
  }

  lemma LargestVersions()
    ensures VersionSum(Packet(7, Operator(Maximum, [One, Two, Three]), 51)) == 14
  {
    assert [One, Two, Three][1..] == [Two, Three] && [Two, Three][1..] == [Three] && [Three][1..] == [];
    assert VersionSums([Three]) == 1;
    assert VersionSums([Two, Three]) == 5;
    assert VersionSums([One, Two, Three]) == 7;
  }

  lemma LargestValue()
    ensures Value(Packet(7, Operator(Maximum, [One, Two, Three]), 51)) == 3
  {
    NibbleBits(1, [0,0,0,1]);
    NibbleBits(2, [0,0,1,0]);
    NibbleBits(3, [0,0,1,1]);
    assert Value(One) == 1 && Value(Two) == 2 && Value(Three) == 3;
    assert Values([One, Two, Three]) == [1, 2, 3];
    assert [1, 2, 3][2] == 3;
    assert MaxOf([1, 2, 3]) == 3;
  }

  /** The bits of two texts side by side are the bits of each, one after the other. */
  lemma {:induction false} HexBitsAppend(a: string, b: string)
    ensures HexBits(a + b) == HexBits(a) + HexBits(b)
    decreases |b|
  {
    if b == [] {
      assert a + b == a;
    } else {
      var front := b[..|b| - 1];
      HexBitsAppend(a, front);
      assert (a + b)[..|a + b| - 1] == a + front;
      assert (a + b)[|a + b| - 1] == b[|b| - 1];
    }
  }

  /** Two hexadecimal digits give their two nibbles. */
  lemma HexPair(s: string, a: nat, b: nat)
    requires |s| == 2 && HexDigit(s[0]) == Some(a) && HexDigit(s[1]) == Some(b)
    ensures HexBits(s) == Nibble(a) + Nibble(b)
  {
    assert s[..1] == [] + [s[0]];
    HexBitsSnoc([], s[0], a);
    assert s == s[..1] + [s[1]];
    HexBitsSnoc(s[..1], s[1], b);
  }

  /** Four hexadecimal digits give their four nibbles. */
  lemma HexQuad(s: string, a: nat, b: nat, c: nat, d: nat)
    requires |s| == 4 && HexDigit(s[0]) == Some(a) && HexDigit(s[1]) == Some(b)
    requires HexDigit(s[2]) == Some(c) && HexDigit(s[3]) == Some(d)
    ensures HexBits(s) == Nibble(a) + Nibble(b) + Nibble(c) + Nibble(d)
  {
    HexPair(s[..2], a, b);
    HexPair(s[2..], c, d);
    assert s == s[..2] + s[2..];
    HexBitsAppend(s[..2], s[2..]);
  }

  /** Four texts side by side give their bits one after the other. */
  lemma HexChunks(a: string, b: string, c: string, d: string)
    ensures HexBits(a + b + c + d) == HexBits(a) + HexBits(b) + HexBits(c) + HexBits(d)
  {
    HexBitsAppend(a + b + c, d);
    HexBitsAppend(a + b, c);
    HexBitsAppend(a, b);
  }

  /** The hexadecimal text of the less-than example. */
  const CompareHex: string := "38006F45291200"

  /** The bits of `38006F45291200` are those of the less-than example. */
  lemma CompareBits()
    ensures HexBits(CompareHex) == Compare
  {
    var a, b, c, d := "3800", "6F45", "2912", "00";
    assert CompareHex == a + b + c + d;
    HexChunks(a, b, c, d);
    Bits3800(a);
    Bits6F45(b);
    Bits2912(c);
    Bits00(d);
  }

  /** The hexadecimal text of the maximum example. */
  const LargestHex: string := "EE00D40C823060"

  /** The bits of `EE00D40C823060` are those of the maximum example. */
  lemma LargestBits()
    ensures HexBits(LargestHex) == Largest
  {
    var a, b, c, d := "EE00", "D40C", "8230", "60";
    assert LargestHex == a + b + c + d;
    HexChunks(a, b, c, d);
    BitsEE00(a);
    BitsD40C(b);
    Bits8230(c);
    Bits60(d);
  }

  // The bits of the two examples' hexadecimal digits, a few at a time.

  lemma Bits3800(s: string)
    requires s == "3800"
    ensures HexBits(s) == [0,0,1,1,1,0,0,0,0,0,0,0,0,0,0,0]
  {
    HexQuad(s, 3, 8, 0, 0);
  }

  lemma Bits6F45(s: string)
    requires s == "6F45"
    ensures HexBits(s) == [0,1,1,0,1,1,1,1,0,1,0,0,0,1,0,1]
  {
    HexQuad(s, 6, 15, 4, 5);
  }

  lemma Bits2912(s: string)
    requires s == "2912"
    ensures HexBits(s) == [0,0,1,0,1,0,0,1,0,0,0,1,0,0,1,0]
  {
    HexQuad(s, 2, 9, 1, 2);
  }

  lemma Bits00(s: string)
    requires s == "00"
    ensures HexBits(s) == [0,0,0,0,0,0,0,0]
  {
    HexPair(s, 0, 0);
  }

  lemma BitsEE00(s: string)
    requires s == "EE00"
    ensures HexBits(s) == [1,1,1,0,1,1,1,0,0,0,0,0,0,0,0,0]
  {
    HexQuad(s, 14, 14, 0, 0);
  }

  lemma BitsD40C(s: string)
    requires s == "D40C"
    ensures HexBits(s) == [1,1,0,1,0,1,0,0,0,0,0,0,1,1,0,0]
  {
    HexQuad(s, 13, 4, 0, 12);
  }

  lemma Bits8230(s: string)
    requires s == "8230"
    ensures HexBits(s) == [1,0,0,0,0,0,1,0,0,0,1,1,0,0,0,0]
  {
    HexQuad(s, 8, 2, 3, 0);
  }

  lemma Bits60(s: string)
    requires s == "60"
    ensures HexBits(s) == [0,1,1,0,0,0,0,0]
  {
    HexPair(s, 6, 0);
  }
}
