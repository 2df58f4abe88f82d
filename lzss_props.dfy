/**
  Properties of the LZSS decoder: how back-references fill the dictionary,
  the period of the flag register, and two encoders whose output the decoder
  inverts (runs of stored bytes, and compressed blocks made only of literals).
*/
module LzssProps {
  import opened Wrappers
  import opened Bytes
  import opened Lzss

  // ---------------------------------------------------------------------------
  // Back-references
  // ---------------------------------------------------------------------------

  /** The dictionary cell `k` places after `writePos`, wrapping around. */
  function DictAt(dict: seq<u8>, writePos: nat, k: nat): u8
    requires |dict| == DictSize
  {
    dict[(writePos + k) % DictSize]
  }

  lemma WrapNext(writePos: nat, k: nat)
    requires writePos < DictSize
    ensures ((writePos + 1) % DictSize + k) % DictSize == (writePos + 1 + k) % DictSize
  {
    if writePos + 1 == DictSize {
      assert (writePos + 1 + k) % DictSize == k % DictSize;
    }
  }

  lemma WrapBack(writePos: nat, i: nat)
    requires writePos < DictSize && i < DictSize && i != writePos
    ensures (i - (writePos + 1) % DictSize) % DictSize == (i - writePos) % DictSize - 1
  {
    if writePos + 1 < DictSize {
      if i < writePos {
        assert (i - writePos) % DictSize == i - writePos + DictSize;
        assert (i - (writePos + 1)) % DictSize == i - writePos - 1 + DictSize;
      }
    }
  }

  lemma WrapBackOne(writePos: nat)
    requires writePos < DictSize
    ensures (writePos - (writePos + 1) % DictSize) % DictSize == DictSize - 1
  {
    if writePos + 1 == DictSize {
      assert (writePos + 1) % DictSize == 0;
    }
  }

  /** A copy of `count` bytes leaves alone every cell more than `count` places past the write position. */
  lemma {:induction false} CopyMatchUntouched(dict: seq<u8>, writePos: nat, output: seq<u8>,
                                              readPos: nat, count: nat, i: nat)
    requires |dict| == DictSize && writePos < DictSize && count <= DictSize
    requires i < DictSize && (i - writePos) % DictSize >= count
    ensures CopyMatch(dict, writePos, output, readPos, count).0[i] == dict[i]
    decreases count
  {
    if count > 0 {
      var b := dict[readPos % DictSize];
      var w := (writePos + 1) % DictSize;
      var d := dict[writePos := b];
      assert i != writePos;
      WrapBack(writePos, i);
      CopyMatchUntouched(d, w, output + [b], readPos + 1, count - 1, i);
    }
  }

  /** The first byte a copy emits is the one at the read position, and it lands at the write position. */
  lemma CopyMatchFirst(dict: seq<u8>, writePos: nat, output: seq<u8>, readPos: nat, count: nat)
    requires |dict| == DictSize && writePos < DictSize && 0 < count <= DictSize
    ensures var r := CopyMatch(dict, writePos, output, readPos, count);
            && r.0[writePos] == dict[readPos % DictSize]
            && r.2[|output|] == dict[readPos % DictSize]
  {
    var b := dict[readPos % DictSize];
    var w := (writePos + 1) % DictSize;
    var d := dict[writePos := b];
    WrapBackOne(writePos);
    CopyMatchUntouched(d, w, output + [b], readPos + 1, count - 1, writePos);
    CopyMatchAppends(d, w, output + [b], readPos + 1, count - 1);
    var r := CopyMatch(d, w, output + [b], readPos + 1, count - 1);
    assert r.0[writePos] == d[writePos];
    assert r.2[|output|] == (output + [b])[|output|];
  }

  /**
    A copy of `count` bytes stores every byte it emits at consecutive
    dictionary cells from the write position: the `k`-th byte emitted sits
    `k` cells after it.
  */
  lemma {:induction false} CopyMatchWritesBack(dict: seq<u8>, writePos: nat, output: seq<u8>,
                                               readPos: nat, count: nat, k: nat)
    requires |dict| == DictSize && writePos < DictSize && k < count <= DictSize
    ensures var r := CopyMatch(dict, writePos, output, readPos, count);
            DictAt(r.0, writePos, k) == r.2[|output| + k]
    decreases count
  {
    if k == 0 {
      CopyMatchFirst(dict, writePos, output, readPos, count);
      InDictionary(writePos);
    } else {
      var b := dict[readPos % DictSize];
      var w := (writePos + 1) % DictSize;
      var d := dict[writePos := b];
      CopyMatchWritesBack(d, w, output + [b], readPos + 1, count - 1, k - 1);
      WrapNext(writePos, k - 1);
      CopyMatchUnfold(dict, writePos, output, readPos, count);
    }
  }

  /** The first step of a copy. */
  lemma CopyMatchUnfold(dict: seq<u8>, writePos: nat, output: seq<u8>, readPos: nat, count: nat)
    requires |dict| == DictSize && writePos < DictSize && 0 < count
    ensures var b := dict[readPos % DictSize];
            CopyMatch(dict, writePos, output, readPos, count)
            == CopyMatch(dict[writePos := b], (writePos + 1) % DictSize, output + [b], readPos + 1, count - 1)
  {
  }

  /**
    A back-reference unit emits bytes that all end up in the dictionary at
    consecutive cells from the old write position, the first of them read
    from `b1 | ((b2 & 0xF0) << 4)`.
  */
  lemma BackReferenceUnit(input: seq<u8>, n: nat, st: BlockState)
    requires ValidState(input, st) && st.flags % 2 == 0
    requires st.bytesRead + 1 < n && st.pos + 1 < |input|
    ensures var r := DecodeUnit(input, n, st);
            && r.Next?
            && (forall k :: 0 <= k < |r.st.output| - |st.output| ==>
                  DictAt(r.st.dict, st.writePos, k) == r.st.output[|st.output| + k])
            && r.st.output[|st.output|] == st.dict[RefPosition(input[st.pos], input[st.pos + 1])]
  {
    var b1 := input[st.pos];
    var b2 := input[st.pos + 1];
    var c := BackReferenceResult(input, n, st);
    var count := RefLength(b2) + 1;
    forall k | 0 <= k < count
      ensures DictAt(c.0, st.writePos, k) == c.2[|st.output| + k]
    {
      CopyMatchWritesBack(st.dict, st.writePos, st.output, RefPosition(b1, b2), count, k);
    }
    CopyMatchFirst(st.dict, st.writePos, st.output, RefPosition(b1, b2), count);
    InDictionary(RefPosition(b1, b2));
  }

  /** A back-reference consumes two code bytes and emits 3 to 18 bytes, as its length nibble says. */
  lemma BackReferenceLength(input: seq<u8>, n: nat, st: BlockState)
    requires ValidState(input, st) && st.flags % 2 == 0
    requires st.bytesRead + 1 < n && st.pos + 1 < |input|
    ensures var r := DecodeUnit(input, n, st);
            && r.Next?
            && r.st.pos == st.pos + 2 && r.st.bytesRead == st.bytesRead + 2
            && |r.st.output| == |st.output| + RefLength(input[st.pos + 1]) + 1
            && MinMatch <= |r.st.output| - |st.output| <= MaxMatch
  {
    var c := BackReferenceResult(input, n, st);
  }

  /** The position's low byte is `b1` and its high nibble the top nibble of `b2`. */
  lemma RefPositionParts(b1: u8, b2: u8)
    ensures RefPosition(b1, b2) % 256 == b1 && RefPosition(b1, b2) / 256 == b2 / 16
  {
    var p := RefPosition(b1, b2);
    assert p == b1 + (b2 / 16) * 256;
  }

  lemma InDictionary(p: nat)
    requires p < DictSize
    ensures p % DictSize == p
  {
  }

  /** The state a back-reference leaves: two code bytes on, and the copy `c` done. */
  lemma BackReferenceResult(input: seq<u8>, n: nat, st: BlockState) returns (c: (seq<u8>, nat, seq<u8>))
    requires ValidState(input, st) && st.flags % 2 == 0
    requires st.bytesRead + 1 < n && st.pos + 1 < |input|
    ensures c == CopyMatch(st.dict, st.writePos, st.output,
                           RefPosition(input[st.pos], input[st.pos + 1]), RefLength(input[st.pos + 1]) + 1)
    ensures DecodeUnit(input, n, st)
            == Next(st.(pos := st.pos + 2, bytesRead := st.bytesRead + 2, dict := c.0, writePos := c.1, output := c.2))
  {
    ReferenceUnfold(input, n, st);
    c := CopyMatch(st.dict, st.writePos, st.output,
                   RefPosition(input[st.pos], input[st.pos + 1]), RefLength(input[st.pos + 1]) + 1);
  }

  lemma ReferenceUnfold(input: seq<u8>, n: nat, st: BlockState)
    requires ValidState(input, st) && st.flags % 2 == 0
    requires st.bytesRead + 1 < n && st.pos + 1 < |input|
    ensures var c := CopyMatch(st.dict, st.writePos, st.output,
                               RefPosition(input[st.pos], input[st.pos + 1]), RefLength(input[st.pos + 1]) + 1);
            DecodeUnit(input, n, st)
            == Next(st.(pos := st.pos + 2, bytesRead := st.bytesRead + 2, dict := c.0, writePos := c.1, output := c.2))
  {
  }

  /** A copy only appends to the output. */
  lemma {:induction false} CopyMatchAppends(dict: seq<u8>, writePos: nat, output: seq<u8>,
                                            readPos: nat, count: nat)
    requires |dict| == DictSize && writePos < DictSize
    ensures output <= CopyMatch(dict, writePos, output, readPos, count).2
    decreases count
  {
    if count > 0 {
      var b := dict[readPos % DictSize];
      CopyMatchAppends(dict[writePos := b], (writePos + 1) % DictSize, output + [b], readPos + 1, count - 1);
    }
  }

  /**
    The three outcomes of one unit. It stops (leaves the block) exactly when
    a back-reference would not fit in the declared length; it fails exactly
    when the stream ends inside the unit; otherwise it only appends to the output.
  */
  lemma UnitCases(input: seq<u8>, n: nat, st: BlockState)
    requires ValidState(input, st) && st.bytesRead <= n
    ensures var r := DecodeUnit(input, n, st);
            && (r.Stop? <==> st.flags % 2 == 0 && st.bytesRead + 1 >= n)
            && (r.Fail? <==> if st.flags % 2 != 0 then st.pos >= |input|
                             else st.bytesRead + 1 < n && st.pos + 1 >= |input|)
            && (r.Next? ==> st.output < r.st.output)
  {
    if st.flags % 2 == 0 && st.bytesRead + 1 < n && st.pos + 1 < |input| {
      var c := BackReferenceResult(input, n, st);
      CopyMatchAppends(st.dict, st.writePos, st.output,
                       RefPosition(input[st.pos], input[st.pos + 1]), RefLength(input[st.pos + 1]) + 1);
    }
  }

  /** A literal: one code byte, appended to the output and stored at the old write position. */
  lemma LiteralUnit(input: seq<u8>, n: nat, st: BlockState)
    requires ValidState(input, st) && st.bytesRead <= n && st.flags % 2 != 0 && st.pos < |input|
    ensures var r := DecodeUnit(input, n, st);
            && r.Next?
            && r.st.pos == st.pos + 1 && r.st.bytesRead == st.bytesRead + 1
            && r.st.output == st.output + [input[st.pos]]
            && r.st.dict == st.dict[st.writePos := input[st.pos]]
            && r.st.writePos == (st.writePos + 1) % DictSize
  {
  }

  /**
    One iteration of the inner loop only appends to the output, and leaves the
    flag register shifted once, or refilled from the stream with its high byte
    set once bit 8 has run out.
  */
  lemma StepEffect(input: seq<u8>, n: nat, st: BlockState)
    requires ValidState(input, st) && st.bytesRead < n
    ensures var r := Step(input, n, st);
            && (r.Next? ==> st.output < r.st.output)
            && (r.Stop? ==> r.st.output == st.output)
            && (r.Next? ==> r.st.flags == if st.flags / 2 / 0x100 % 2 == 0 then input[st.pos] + 0xFF00
                                          else st.flags / 2)
  {
    var flags := st.flags / 2;
    if flags / 0x100 % 2 == 0 {
      if st.pos < |input| {
        var refilled := st.(pos := st.pos + 1, bytesRead := st.bytesRead + 1,
                            flags := (input[st.pos] as int) + 0xFF00);
        if refilled.bytesRead <= n {
          UnitCases(input, n, refilled);
        }
      }
    } else {
      UnitCases(input, n, st.(flags := flags));
    }
  }

  /** A block only appends to the output. */
  lemma {:induction false} BlockLoopAppends(input: seq<u8>, n: nat, st: BlockState)
    requires ValidState(input, st) && st.bytesRead <= n + 1
    ensures var r := BlockLoop(input, n, st);
            r.Ok? ==> st.output <= r.value.output
    decreases n + 1 - st.bytesRead
  {
    if st.bytesRead < n {
      StepEffect(input, n, st);
      var s := Step(input, n, st);
      if s.Next? {
        BlockLoopAppends(input, n, s.st);
      }
    }
  }

  /** Decoding only appends to the output: what was decoded before a block stays. */
  lemma {:induction false} BlocksAppend(input: seq<u8>, pos: nat, output: seq<u8>)
    requires pos <= |input|
    ensures var r := Blocks(input, pos, output);
            r.Ok? ==> output <= r.value
    decreases |input| - pos
  {
    if pos + 2 <= |input| {
      var n := ReadI16BE(input, pos);
      if n < 0 && n != -0x8000 && pos + 2 - n <= |input| {
        BlocksAppend(input, pos + 2 - n, output + input[pos + 2..pos + 2 - n]);
      } else if n > 0 {
        var start := StartBlock(pos + 2, output);
        BlockLoopAppends(input, n, start);
        var r := BlockLoop(input, n, start);
        if r.Ok? {
          BlocksAppend(input, r.value.pos, r.value.output);
        }
      }
    }
  }

  // ---------------------------------------------------------------------------
  // The flag register
  // ---------------------------------------------------------------------------

  /** The flag register after `j` more units: `j` right shifts. */
  function Shifted(flags: nat, j: nat): nat {
    if j == 0 then flags else Shifted(flags / 2, j - 1)
  }

  lemma {:induction false} ShiftedOnceMore(flags: nat, j: nat)
    ensures Shifted(flags, j + 1) == Shifted(flags, j) / 2
    decreases j
  {
    if j > 0 {
      ShiftedOnceMore(flags / 2, j - 1);
    }
  }

  /** What is left of the refill's 0xFF00 after `j` shifts. */
  function HighAfter(j: nat): nat
    requires j <= 8
  {
    [0xFF00, 0x7F80, 0x3FC0, 0x1FE0, 0xFF0, 0x7F8, 0x3FC, 0x1FE, 0xFF][j]
  }

  /** Shifting a refilled register shifts the flag byte and the high byte apart: no bits mix. */
  lemma RefilledShifts(c: u8, j: nat)
    requires j <= 8
    ensures Shifted(c + 0xFF00, j) == Shifted(c, j) + HighAfter(j)
    ensures Shifted(c, j) < [0x100, 0x80, 0x40, 0x20, 0x10, 0x8, 0x4, 0x2, 0x1][j]
  {
    var bound: seq<nat> := [0x100, 0x80, 0x40, 0x20, 0x10, 0x8, 0x4, 0x2, 0x1];
    var k := 0;
    while k < j
      invariant k <= j
      invariant Shifted(c + 0xFF00, k) == Shifted(c, k) + HighAfter(k)
      invariant Shifted(c, k) < bound[k]
    {
      ShiftedOnceMore(c + 0xFF00, k);
      ShiftedOnceMore(c, k);
      k := k + 1;
    }
  }

  /**
    After a refill with flag byte `c`, the next seven units find bit 8 set
    and use no flag byte, and the eighth reads a new one; unit `j` of the
    eight is a literal exactly when bit `j` of `c` is set.
  */
  lemma RefillPeriod(c: u8, j: nat)
    requires j <= 8
    ensures 1 <= j ==> (Shifted(c + 0xFF00, j) / 0x100 % 2 == 1 <==> j < 8)
    ensures j < 8 ==> Shifted(c + 0xFF00, j) % 2 == Shifted(c, j) % 2
  {
    RefilledShifts(c, j);
    var x := Shifted(c, j);
    if j == 0 {
    } else if j == 1 { assert x < 0x80;
    } else if j == 2 { assert x < 0x40;
    } else if j == 3 { assert x < 0x20;
    } else if j == 4 { assert x < 0x10;
    } else if j == 5 { assert x < 0x8;
    } else if j == 6 { assert x < 0x4;
    } else if j == 7 { assert x < 0x2;
    } else { assert x < 0x1;
    }
  }

  // ---------------------------------------------------------------------------
  // Encoders the decoder inverts
  // ---------------------------------------------------------------------------

  /** One block of an encoded stream: bytes stored verbatim, or coded as literals only. */
  datatype Chunk = Stored(bytes: seq<u8>) | Literals(bytes: seq<u8>)

  /** Code bytes taken by the first `i` literals of a literal-only block: a flag byte per eight. */
  function CodeLen(i: nat): nat {
    i + (i + 7) / 8
  }

  /** The literal that code byte `p` carries when it is not a flag byte. */
  function LiteralIndex(p: nat): int {
    p - p / 9 - 1
  }

  lemma LiteralIndexBound(i: nat, p: nat)
    requires p < CodeLen(i) && p % 9 != 0
    ensures 0 <= LiteralIndex(p) < i
  {
    assert p == 9 * (p / 9) + p % 9;
  }

  /**
    Literal-only LZSS code: groups of up to eight literals, each after a flag
    byte 0xFF whose bits all say "literal". Code byte `p` is a flag byte
    exactly when `p` is a multiple of 9.
  */
  function LiteralCode(data: seq<u8>): (code: seq<u8>)
    ensures |code| == CodeLen(|data|)
  {
    seq(CodeLen(|data|), p requires 0 <= p < CodeLen(|data|) =>
      if p % 9 == 0 then 0xFF else LiteralIndexBound(|data|, p); data[LiteralIndex(p)])
  }

  predicate ValidChunk(c: Chunk) {
    match c
    case Stored(b) => 0 < |b| < 0x8000
    case Literals(b) => 0 < |b| && CodeLen(|b|) < 0x8000
  }

  /** A block header and its payload: a negative length for stored bytes, a positive one for code. */
  function EncodeChunk(c: Chunk): (r: seq<u8>)
    requires ValidChunk(c)
    ensures |r| >= 3
  {
    match c
    case Stored(b) => I16BE(-|b|) + b
    case Literals(b) => I16BE(|LiteralCode(b)|) + LiteralCode(b)
  }

  predicate ValidChunks(chunks: seq<Chunk>) {
    forall i :: 0 <= i < |chunks| ==> ValidChunk(chunks[i])
  }

  /** A whole stream: the encoded chunks, then the 0 length that ends it. */
  function EncodeStream(chunks: seq<Chunk>): (r: seq<u8>)
    requires ValidChunks(chunks)
    ensures |r| >= 2
  {
    if chunks == [] then [0, 0] else EncodeChunk(chunks[0]) + EncodeStream(chunks[1..])
  }

  function Flatten(chunks: seq<Chunk>): seq<u8> {
    if chunks == [] then [] else chunks[0].bytes + Flatten(chunks[1..])
  }

  /** The flag register after the first `j + 1` literals of a group coded with flag byte 0xFF. */
  function GroupFlags(j: nat): u16
    requires j < 8
  {
    if j == 0 then 0xFFFF else if j == 1 then 0x7FFF else if j == 2 then 0x3FFF
    else if j == 3 then 0x1FFF else if j == 4 then 0xFFF else if j == 5 then 0x7FF
    else if j == 6 then 0x3FF else 0x1FF
  }

  lemma GroupFlagsShift(j: nat)
    requires j < 8
    ensures j < 7 ==> GroupFlags(j) / 2 == GroupFlags(j + 1)
    ensures j < 7 ==> GroupFlags(j + 1) / 0x100 % 2 == 1 && GroupFlags(j + 1) % 2 == 1
    ensures j == 7 ==> GroupFlags(j) / 2 / 0x100 % 2 == 0
  {
    if j == 0 {} else if j == 1 {} else if j == 2 {} else if j == 3 {}
    else if j == 4 {} else if j == 5 {} else if j == 6 {} else {}
  }

  /** The state after a literal `b` under flag register `flags`, `used` code bytes on. */
  function AfterLiteral(st: BlockState, used: nat, flags: u16, b: u8): BlockState
    requires |st.dict| == DictSize && st.writePos < DictSize
  {
    st.(pos := st.pos + used, bytesRead := st.bytesRead + used, flags := flags,
        output := st.output + [b], dict := st.dict[st.writePos := b],
        writePos := (st.writePos + 1) % DictSize)
  }

  /** A unit whose flag bit is set and needs no refill: one literal. */
  lemma LiteralStep(input: seq<u8>, n: nat, st: BlockState, flags: u16, b: u8)
    requires ValidState(input, st) && st.bytesRead < n && st.pos < |input| && input[st.pos] == b
    requires flags == st.flags / 2 && flags / 0x100 % 2 == 1 && flags % 2 == 1
    ensures BlockLoop(input, n, st) == BlockLoop(input, n, AfterLiteral(st, 1, flags, b))
  {
    assert Step(input, n, st) == DecodeUnit(input, n, st.(flags := flags));
  }

  /** A unit that first refills the register with flag byte 0xFF: one literal after it. */
  lemma RefillLiteralStep(input: seq<u8>, n: nat, st: BlockState, b: u8)
    requires ValidState(input, st) && st.bytesRead + 1 < n && st.pos + 1 < |input|
    requires st.flags / 2 / 0x100 % 2 == 0 && input[st.pos] == 0xFF && input[st.pos + 1] == b
    ensures BlockLoop(input, n, st) == BlockLoop(input, n, AfterLiteral(st, 2, 0xFFFF, b))
  {
    var s := st.(pos := st.pos + 1, bytesRead := st.bytesRead + 1, flags := 0xFFFF);
    assert Step(input, n, st) == DecodeUnit(input, n, s);
  }

  /** `code` sits in `input` at `pos`. */
  ghost predicate Window(input: seq<u8>, pos: nat, code: seq<u8>) {
    pos + |code| <= |input| && input[pos..pos + |code|] == code
  }

  /** The inner loop from `st` ends without error, with output `out` and the cursor at `end`. */
  ghost predicate DecodesTo(input: seq<u8>, n: nat, st: BlockState, out: seq<u8>, end: nat)
    requires ValidState(input, st) && st.bytesRead <= n + 1
  {
    var r := BlockLoop(input, n, st);
    r.Ok? && r.value.output == out && r.value.pos == end
  }

  /** The flag register after the first `i` literals of a literal-only block. */
  function FlagsAfter(i: nat): u16 {
    if i == 0 then 0 else GroupFlags((i - 1) % 8)
  }

  /** Where literal `i` sits in the code: after a flag byte when it starts a group. */
  lemma CodeAt(data: seq<u8>, i: nat)
    requires i < |data|
    ensures var p := CodeLen(i);
            var code := LiteralCode(data);
            && CodeLen(i + 1) == p + (if i % 8 == 0 then 2 else 1) <= CodeLen(|data|)
            && (i % 8 == 0 ==> code[p] == 0xFF && code[p + 1] == data[i])
            && (i % 8 != 0 ==> code[p] == data[i])
  {
    var m := i / 8;
    var r := i % 8;
    assert i == 8 * m + r;
    var p := CodeLen(i);
    if r == 0 {
      assert p == 9 * m;
      assert LiteralIndex(p + 1) == i;
    } else {
      assert p == 9 * m + r + 1;
      assert LiteralIndex(p) == i;
    }
  }

  /** The decoder after the first `i` literals of `data`, whose code sits at `base`. */
  ghost predicate AfterLiterals(input: seq<u8>, base: nat, data: seq<u8>, st: BlockState, i: nat) {
    && ValidState(input, st) && i <= |data|
    && Window(input, base, LiteralCode(data))
    && st.pos == base + CodeLen(i) && st.bytesRead == CodeLen(i) && st.flags == FlagsAfter(i)
  }

  /** Literal `i` is the one after literal `i - 1` within its group of eight, or starts a new group. */
  lemma GroupPosition(i: nat)
    requires i > 0
    ensures i % 8 != 0 ==> (i - 1) % 8 < 7 && (i - 1) % 8 + 1 == i % 8
    ensures i % 8 == 0 ==> (i - 1) % 8 == 7
    ensures FlagsAfter(i) == GroupFlags((i - 1) % 8) && FlagsAfter(i + 1) == GroupFlags(i % 8)
  {
  }

  /** Decoding literal `i`: a refill and a literal at the start of a group, a literal inside one. */
  lemma NextLiteral(input: seq<u8>, base: nat, data: seq<u8>, st: BlockState, i: nat) returns (next: BlockState)
    requires AfterLiterals(input, base, data, st, i) && i < |data|
    ensures AfterLiterals(input, base, data, next, i + 1) && next.output == st.output + [data[i]]
    ensures BlockLoop(input, CodeLen(|data|), st) == BlockLoop(input, CodeLen(|data|), next)
  {
    CodeAt(data, i);
    if i % 8 == 0 {
      next := GroupStart(input, base, data, st, i);
    } else {
      next := InGroup(input, base, data, st, i);
    }
  }

  /** A literal that starts a group: the flag byte 0xFF, then the literal. */
  lemma GroupStart(input: seq<u8>, base: nat, data: seq<u8>, st: BlockState, i: nat) returns (next: BlockState)
    requires AfterLiterals(input, base, data, st, i) && i < |data| && i % 8 == 0
    ensures next == AfterLiteral(st, 2, FlagsAfter(i + 1), data[i])
    ensures BlockLoop(input, CodeLen(|data|), st) == BlockLoop(input, CodeLen(|data|), next)
  {
    var p := CodeLen(i);
    CodeAt(data, i);
    WindowAt(input, base, LiteralCode(data), p);
    WindowAt(input, base, LiteralCode(data), p + 1);
    if i > 0 {
      GroupPosition(i);
      GroupFlagsShift(7);
    }
    RefillLiteralStep(input, CodeLen(|data|), st, data[i]);
    next := AfterLiteral(st, 2, FlagsAfter(i + 1), data[i]);
  }

  /** A literal inside a group: its flag is already in the register. */
  lemma InGroup(input: seq<u8>, base: nat, data: seq<u8>, st: BlockState, i: nat) returns (next: BlockState)
    requires AfterLiterals(input, base, data, st, i) && i < |data| && i % 8 != 0
    ensures next == AfterLiteral(st, 1, FlagsAfter(i + 1), data[i])
    ensures BlockLoop(input, CodeLen(|data|), st) == BlockLoop(input, CodeLen(|data|), next)
  {
    var p := CodeLen(i);
    CodeAt(data, i);
    WindowAt(input, base, LiteralCode(data), p);
    GroupPosition(i);
    GroupFlagsShift((i - 1) % 8);
    LiteralStep(input, CodeLen(|data|), st, FlagsAfter(i + 1), data[i]);
    next := AfterLiteral(st, 1, FlagsAfter(i + 1), data[i]);
  }

  /** From the state after `i` literals, the rest of a literal-only block decodes to the rest of `data`. */
  lemma {:induction false} LiteralsFrom(input: seq<u8>, base: nat, data: seq<u8>, st: BlockState, i: nat)
    requires AfterLiterals(input, base, data, st, i)
    ensures DecodesTo(input, CodeLen(|data|), st, st.output + data[i..], base + CodeLen(|data|))
    decreases |data| - i
  {
    var n := CodeLen(|data|);
    var end := base + n;
    if i == |data| {
      assert st.output + data[i..] == st.output;
    } else {
      var next := NextLiteral(input, base, data, st, i);
      LiteralsFrom(input, base, data, next, i + 1);
      OutputCons(st.output, data, i);
      SameRun(input, n, st, next, st.output + data[i..], end);
    }
  }

  lemma OutputCons(output: seq<u8>, data: seq<u8>, i: nat)
    requires i < |data|
    ensures output + [data[i]] + data[i + 1..] == output + data[i..]
  {
    assert data[i..] == [data[i]] + data[i + 1..];
  }

  lemma SameRun(input: seq<u8>, n: nat, st: BlockState, next: BlockState, out: seq<u8>, end: nat)
    requires ValidState(input, st) && st.bytesRead <= n + 1
    requires ValidState(input, next) && next.bytesRead <= n + 1
    requires BlockLoop(input, n, st) == BlockLoop(input, n, next) && DecodesTo(input, n, next, out, end)
    ensures DecodesTo(input, n, st, out, end)
  {
  }

  /** One encoded chunk at `pos` appends its bytes and moves the decoder past it. */
  lemma ChunkDecodes(input: seq<u8>, pos: nat, output: seq<u8>, c: Chunk)
    requires ValidChunk(c) && Window(input, pos, EncodeChunk(c))
    ensures Blocks(input, pos, output) == Blocks(input, pos + |EncodeChunk(c)|, output + c.bytes)
  {
    if c.Stored? {
      StoredDecodes(input, pos, output, c);
    } else {
      LiteralsDecode(input, pos, output, c);
    }
  }

  /** A negative length, then that many bytes: they are copied to the output. */
  lemma StoredDecodes(input: seq<u8>, pos: nat, output: seq<u8>, c: Chunk)
    requires c.Stored? && ValidChunk(c) && Window(input, pos, EncodeChunk(c))
    ensures Blocks(input, pos, output) == Blocks(input, pos + |EncodeChunk(c)|, output + c.bytes)
  {
    var b := c.bytes;
    assert EncodeChunk(c) == I16BE(-|b|) + b;
    SplitWindow(input, pos, I16BE(-|b|), b);
    ReadI16BEOfI16BE(input, pos, -|b|);
  }

  /**
    A negative length with fewer bytes after it than it announces is an
    error, whatever the output so far: `read_exact` fails.
  */
  lemma ShortStoredRunFails(input: seq<u8>, pos: nat, output: seq<u8>)
    requires pos + 2 <= |input| && -0x8000 < ReadI16BE(input, pos) < 0
    requires pos + 2 - ReadI16BE(input, pos) > |input|
    ensures Blocks(input, pos, output) == Err(ShortUncompressedRun)
  {
  }

  /** The length -32768, whose negation does not fit an `i16`, is refused. */
  lemma MinimumLengthFails(input: seq<u8>, pos: nat, output: seq<u8>)
    requires pos + 2 <= |input| && input[pos] == 0x80 && input[pos + 1] == 0
    ensures Blocks(input, pos, output) == Err(BlockLengthOverflow)
  {
  }

  /** `FF FE 41` announces two stored bytes but holds one. */
  lemma ShortStoredRunExample()
    ensures Decompressed([0xFF, 0xFE, 0x41]) == Err(ShortUncompressedRun)
  {
    ShortStoredRunFails([0xFF, 0xFE, 0x41], 0, []);
  }

  /** A positive length, then the literal-only code of the bytes: they are appended. */
  lemma LiteralsDecode(input: seq<u8>, pos: nat, output: seq<u8>, c: Chunk)
    requires c.Literals? && ValidChunk(c) && Window(input, pos, EncodeChunk(c))
    ensures Blocks(input, pos, output) == Blocks(input, pos + |EncodeChunk(c)|, output + c.bytes)
  {
    var b := c.bytes;
    CodeHeader(input, pos, c);
    LiteralBlock(input, pos + 2, output, b);
    CodedBlock(input, pos, output, CodeLen(|b|), output + b, pos + 2 + CodeLen(|b|));
  }

  /** The header of a literal-only chunk is the length of its code, which follows it. */
  lemma CodeHeader(input: seq<u8>, pos: nat, c: Chunk)
    requires c.Literals? && ValidChunk(c) && Window(input, pos, EncodeChunk(c))
    ensures pos + |EncodeChunk(c)| == pos + 2 + CodeLen(|c.bytes|)
    ensures ReadI16BE(input, pos) == CodeLen(|c.bytes|) && Window(input, pos + 2, LiteralCode(c.bytes))
  {
    var code := LiteralCode(c.bytes);
    assert EncodeChunk(c) == I16BE(|code|) + code;
    SplitWindow(input, pos, I16BE(|code|), code);
    ReadI16BEOfI16BE(input, pos, |code|);
  }

  /** A whole literal-only block whose code sits at `base` decodes to its literals. */
  lemma LiteralBlock(input: seq<u8>, base: nat, output: seq<u8>, b: seq<u8>)
    requires Window(input, base, LiteralCode(b))
    ensures DecodesTo(input, CodeLen(|b|), StartBlock(base, output), output + b, base + CodeLen(|b|))
  {
    LiteralsFrom(input, base, b, StartBlock(base, output), 0);
    assert output + b[0..] == output + b;
  }

  /** A positive length whose block decodes to `out`, ending at `end`: decoding goes on from there. */
  lemma CodedBlock(input: seq<u8>, pos: nat, output: seq<u8>, n: nat, out: seq<u8>, end: nat)
    requires pos + 2 <= |input| && 0 < n && ReadI16BE(input, pos) == n
    requires DecodesTo(input, n, StartBlock(pos + 2, output), out, end)
    ensures end <= |input| && Blocks(input, pos, output) == Blocks(input, end, out)
  {
  }

  /** A 0 length at `pos` ends decoding with the output so far. */
  lemma StreamEnd(input: seq<u8>, pos: nat, output: seq<u8>)
    requires Window(input, pos, [0, 0])
    ensures Blocks(input, pos, output) == Ok(output)
  {
    assert input[pos] == 0 && input[pos + 1] == 0 by {
      assert input[pos..pos + 2] == [0, 0];
    }
    assert ReadI16BE(input, pos) == 0;
  }

  /** An encoded stream at `pos` appends the bytes of all its chunks and stops at its 0 length. */
  lemma {:induction false} StreamDecodes(input: seq<u8>, pos: nat, output: seq<u8>, chunks: seq<Chunk>)
    requires ValidChunks(chunks) && Window(input, pos, EncodeStream(chunks))
    ensures Blocks(input, pos, output) == Ok(output + Flatten(chunks))
    decreases |chunks|
  {
    if chunks == [] {
      StreamEnd(input, pos, output);
      assert output + Flatten(chunks) == output;
    } else {
      TailWindow(input, pos, chunks);
      StreamDecodes(input, pos + |EncodeChunk(chunks[0])|, output + chunks[0].bytes, chunks[1..]);
      ChunkThenRest(input, pos, output, chunks);
    }
  }

  /** A stream that is not empty is its first chunk, then the stream of the others. */
  lemma TailWindow(input: seq<u8>, pos: nat, chunks: seq<Chunk>)
    requires chunks != [] && ValidChunks(chunks) && Window(input, pos, EncodeStream(chunks))
    ensures ValidChunks(chunks[1..]) && Window(input, pos, EncodeChunk(chunks[0]))
    ensures Window(input, pos + |EncodeChunk(chunks[0])|, EncodeStream(chunks[1..]))
  {
    StreamCons(chunks);
    WindowSplit(input, pos, EncodeChunk(chunks[0]), EncodeStream(chunks[1..]));
  }

  /** A window holding `a + b` holds `a`, then `b`. */
  lemma WindowSplit(input: seq<u8>, pos: nat, a: seq<u8>, b: seq<u8>)
    requires Window(input, pos, a + b)
    ensures Window(input, pos, a) && Window(input, pos + |a|, b)
  {
    SplitWindow(input, pos, a, b);
  }

  lemma StreamCons(chunks: seq<Chunk>)
    requires chunks != [] && ValidChunks(chunks)
    ensures ValidChunks(chunks[1..])
    ensures EncodeStream(chunks) == EncodeChunk(chunks[0]) + EncodeStream(chunks[1..])
  {
    assert forall i :: 0 <= i < |chunks| - 1 ==> chunks[1..][i] == chunks[i + 1];
  }

  /** The first chunk decodes, and the others decode after it. */
  lemma ChunkThenRest(input: seq<u8>, pos: nat, output: seq<u8>, chunks: seq<Chunk>)
    requires chunks != [] && ValidChunks(chunks) && Window(input, pos, EncodeChunk(chunks[0]))
    requires var next := pos + |EncodeChunk(chunks[0])|;
             next <= |input| &&
             Blocks(input, next, output + chunks[0].bytes) == Ok(output + chunks[0].bytes + Flatten(chunks[1..]))
    ensures Blocks(input, pos, output) == Ok(output + Flatten(chunks))
  {
    ChunkDecodes(input, pos, output, chunks[0]);
    FlattenCons(output, chunks);
  }

  lemma FlattenCons(output: seq<u8>, chunks: seq<Chunk>)
    requires chunks != []
    ensures output + chunks[0].bytes + Flatten(chunks[1..]) == output + Flatten(chunks)
  {
    assert Flatten(chunks) == chunks[0].bytes + Flatten(chunks[1..]);
  }

  /**
    The round trip: a stream of stored and literal-coded blocks decodes to the
    concatenation of their bytes, whatever follows its terminating 0 length.
  */
  lemma RoundTrip(chunks: seq<Chunk>, trailer: seq<u8>)
    requires ValidChunks(chunks)
    ensures Decompressed(EncodeStream(chunks) + trailer) == Ok(Flatten(chunks))
  {
    var input := EncodeStream(chunks) + trailer;
    assert input[0..|EncodeStream(chunks)|] == EncodeStream(chunks);
    assert Window(input, 0, EncodeStream(chunks));
    StreamDecodes(input, 0, [], chunks);
    assert [] + Flatten(chunks) == Flatten(chunks);
  }

  // ---------------------------------------------------------------------------
  // What back-references copy
  // ---------------------------------------------------------------------------

  function Repeat(x: u8, count: nat): (r: seq<u8>) {
    seq(count, _ => x)
  }

  /** Every cell of a fresh dictionary is a space, so a copy from it emits spaces and keeps it so. */
  lemma {:induction false} CopySpaces(dict: seq<u8>, writePos: nat, output: seq<u8>, readPos: nat, count: nat)
    requires |dict| == DictSize && writePos < DictSize
    requires forall i :: 0 <= i < DictSize ==> dict[i] == Space
    ensures CopyMatch(dict, writePos, output, readPos, count).2 == output + Repeat(Space, count)
    decreases count
  {
    if count > 0 {
      var d := dict[writePos := Space];
      assert forall i :: 0 <= i < DictSize ==> d[i] == Space;
      CopySpaces(d, (writePos + 1) % DictSize, output + [Space], readPos + 1, count - 1);
      assert output + [Space] + Repeat(Space, count - 1) == output + Repeat(Space, count);
    }
  }

  lemma ModSucc(a: nat)
    ensures (a % DictSize + 1) % DictSize == (a + 1) % DictSize
  {
  }

  /**
    A reference to the cell just before the write position repeats the byte
    there: each copied byte is written where the next one is read.
  */
  lemma {:induction false} CopyRepeats(dict: seq<u8>, writePos: nat, output: seq<u8>, readPos: nat,
                                       count: nat, x: u8)
    requires |dict| == DictSize && writePos < DictSize
    requires writePos == (readPos + 1) % DictSize && dict[readPos % DictSize] == x
    ensures CopyMatch(dict, writePos, output, readPos, count).2 == output + Repeat(x, count)
    decreases count
  {
    if count > 0 {
      var d := dict[writePos := x];
      var w := (writePos + 1) % DictSize;
      ModSucc(readPos + 1);
      assert d[(readPos + 1) % DictSize] == x;
      CopyRepeats(d, w, output + [x], readPos + 1, count - 1, x);
      assert output + [x] + Repeat(x, count - 1) == output + Repeat(x, count);
    }
  }

  // ---------------------------------------------------------------------------
  // Blocks do not depend on what was decoded before them
  // ---------------------------------------------------------------------------

  function WithPrefix(pre: seq<u8>, st: BlockState): BlockState {
    st.(output := pre + st.output)
  }

  function PrefixOutcome(pre: seq<u8>, r: StepOutcome): StepOutcome {
    match r
    case Next(s) => Next(WithPrefix(pre, s))
    case Stop(s) => Stop(WithPrefix(pre, s))
    case Fail(e) => Fail(e)
  }

  function PrefixState(pre: seq<u8>, r: Result<BlockState, LzssError>): Result<BlockState, LzssError> {
    match r
    case Ok(s) => Ok(WithPrefix(pre, s))
    case Err(e) => Err(e)
  }

  function PrefixOutput(pre: seq<u8>, r: Result<seq<u8>, LzssError>): Result<seq<u8>, LzssError> {
    match r
    case Ok(o) => Ok(pre + o)
    case Err(e) => Err(e)
  }

  lemma {:induction false} CopyMatchPrefix(dict: seq<u8>, writePos: nat, pre: seq<u8>, output: seq<u8>,
                                           readPos: nat, count: nat)
    requires |dict| == DictSize && writePos < DictSize
    ensures var r := CopyMatch(dict, writePos, output, readPos, count);
            CopyMatch(dict, writePos, pre + output, readPos, count) == (r.0, r.1, pre + r.2)
    decreases count
  {
    if count > 0 {
      var b := dict[readPos % DictSize];
      CopyMatchPrefix(dict[writePos := b], (writePos + 1) % DictSize, pre, output + [b], readPos + 1, count - 1);
      assert pre + output + [b] == pre + (output + [b]);
    }
  }

  lemma UnitPrefix(input: seq<u8>, n: nat, st: BlockState, pre: seq<u8>)
    requires ValidState(input, st) && st.bytesRead <= n
    ensures DecodeUnit(input, n, WithPrefix(pre, st)) == PrefixOutcome(pre, DecodeUnit(input, n, st))
  {
    if st.flags % 2 != 0 {
      if st.pos < |input| {
        assert pre + st.output + [input[st.pos]] == pre + (st.output + [input[st.pos]]);
      }
    } else if st.bytesRead + 1 < n && st.pos + 1 < |input| {
      var b1 := input[st.pos];
      var b2 := input[st.pos + 1];
      CopyMatchPrefix(st.dict, st.writePos, pre, st.output, RefPosition(b1, b2), RefLength(b2) + 1);
    }
  }

  lemma StepPrefix(input: seq<u8>, n: nat, st: BlockState, pre: seq<u8>)
    requires ValidState(input, st) && st.bytesRead < n
    ensures Step(input, n, WithPrefix(pre, st)) == PrefixOutcome(pre, Step(input, n, st))
  {
    if st.flags / 2 / 0x100 % 2 == 0 {
      if st.pos < |input| {
        var refilled := RefillStep(input, n, st);
        var refilledWith := RefillStep(input, n, WithPrefix(pre, st));
        assert refilledWith == WithPrefix(pre, refilled);
        UnitPrefix(input, n, refilled, pre);
      }
    } else {
      var shifted := ShiftStep(input, n, st);
      var shiftedWith := ShiftStep(input, n, WithPrefix(pre, st));
      assert shiftedWith == WithPrefix(pre, shifted);
      UnitPrefix(input, n, shifted, pre);
    }
  }

  lemma {:induction false} BlockLoopPrefix(input: seq<u8>, n: nat, st: BlockState, pre: seq<u8>)
    requires ValidState(input, st) && st.bytesRead <= n + 1
    ensures BlockLoop(input, n, WithPrefix(pre, st)) == PrefixState(pre, BlockLoop(input, n, st))
    decreases n + 1 - st.bytesRead
  {
    if st.bytesRead < n {
      StepPrefix(input, n, st, pre);
      var r := Step(input, n, st);
      if r.Next? {
        BlockLoopPrefix(input, n, r.st, pre);
      }
    }
  }

  /**
    No state but the output carries over from one block to the next: decoding
    from `pos` appends the same bytes, or fails the same way, whatever was
    decoded before.
  */
  lemma {:induction false} NoCarryOver(input: seq<u8>, pos: nat, pre: seq<u8>, output: seq<u8>)
    requires pos <= |input|
    ensures Blocks(input, pos, pre + output) == PrefixOutput(pre, Blocks(input, pos, output))
    decreases |input| - pos
  {
    if pos + 2 <= |input| {
      var n := ReadI16BE(input, pos);
      if n < 0 && n != -0x8000 && pos + 2 - n <= |input| {
        var run := input[pos + 2..pos + 2 - n];
        NoCarryOver(input, pos + 2 - n, pre, output + run);
        assert pre + output + run == pre + (output + run);
      } else if n > 0 {
        var start := StartBlock(pos + 2, output);
        BlockLoopPrefix(input, n, start, pre);
        var r := BlockLoop(input, n, start);
        assert WithPrefix(pre, start) == StartBlock(pos + 2, pre + output);
        if r.Ok? {
          NoCarryOver(input, r.value.pos, pre, r.value.output);
        }
      }
    }
  }

  // ---------------------------------------------------------------------------
  // Back-references on concrete streams
  // ---------------------------------------------------------------------------

  /**
    A back-reference into a fresh dictionary copies spaces: block length 3,
    flag byte 0 (a reference), position 0xFEE (4078), length nibble 0.
  */
  lemma FreshReference(input: seq<u8>, pos: nat, output: seq<u8>)
    requires Window(input, pos, [0x00, 0x03, 0x00, 0xEE, 0xF0])
    ensures Blocks(input, pos, output) == Blocks(input, pos + 5, output + [0x20, 0x20, 0x20])
  {
    var w: seq<u8> := [0x00, 0x03, 0x00, 0xEE, 0xF0];
    assert input[pos..pos + 5] == w;
    assert input[pos] == 0 && input[pos + 1] == 3;
    assert ReadI16BE(input, pos) == 3;
    var s := FreshUnit(input, pos, output);
  }

  /** The one unit of the example: a refill with flag byte 0, then a reference to 4078 of length 3. */
  lemma FreshUnit(input: seq<u8>, pos: nat, output: seq<u8>) returns (s: BlockState)
    requires Window(input, pos, [0x00, 0x03, 0x00, 0xEE, 0xF0])
    ensures BlockLoop(input, 3, StartBlock(pos + 2, output)) == Ok(s)
    ensures s.pos == pos + 5 && s.output == output + [0x20, 0x20, 0x20]
  {
    var w: seq<u8> := [0x00, 0x03, 0x00, 0xEE, 0xF0];
    WindowAt(input, pos, w, 2);
    WindowAt(input, pos, w, 3);
    WindowAt(input, pos, w, 4);
    ReferenceTo4078(input[pos + 3], input[pos + 4]);
    var st0 := StartBlock(pos + 2, output);
    var st1 := RefillStep(input, 3, st0);
    var c := BackReferenceResult(input, 3, st1);
    CopySpaces(st1.dict, st1.writePos, st1.output, RefPosition(input[pos + 3], input[pos + 4]), 3);
    s := st1.(pos := pos + 5, bytesRead := 3, dict := c.0, writePos := c.1, output := c.2);
    LoopThrough(input, 3, st0, s);
    LoopEnds(input, 3, s);
    assert output + Repeat(Space, 3) == output + [0x20, 0x20, 0x20];
  }

  lemma FreshDictionaryIsSpaces()
    ensures Decompressed([0x00, 0x03, 0x00, 0xEE, 0xF0]) == Ok([0x20, 0x20, 0x20])
  {
    var input: seq<u8> := [0x00, 0x03, 0x00, 0xEE, 0xF0];
    assert input[0..5] == input;
    FreshReference(input, 0, []);
    var out: seq<u8> := [0x20, 0x20, 0x20];
    assert [] + [0x20, 0x20, 0x20] == out;
    assert Blocks(input, 5, out) == Ok(out);
  }

  /**
    A reference may overlap the bytes it writes: a literal `x` stored at 4078,
    then a 3-byte reference to 4078, yields `x` four times.
  */
  lemma RepeatedLiteral(input: seq<u8>, pos: nat, output: seq<u8>, x: u8)
    requires Window(input, pos, [0x00, 0x04, 0x01, x, 0xEE, 0xF0])
    ensures Blocks(input, pos, output) == Blocks(input, pos + 6, output + [x, x, x, x])
  {
    var w: seq<u8> := [0x00, 0x04, 0x01, x, 0xEE, 0xF0];
    assert input[pos..pos + 6] == w;
    assert input[pos] == 0 && input[pos + 1] == 4;
    assert ReadI16BE(input, pos) == 4;
    var lit := ExampleLiteral(input, pos, output, x);
    var s := ExampleRepeat(input, pos, output, x, lit);
  }

  /** The first unit of the example: a refill with flag byte 1, then the literal `x`. */
  lemma ExampleLiteral(input: seq<u8>, pos: nat, output: seq<u8>, x: u8) returns (lit: BlockState)
    requires Window(input, pos, [0x00, 0x04, 0x01, x, 0xEE, 0xF0])
    ensures lit == BlockState(pos + 4, 2, 0xFF01, BlankDictionary()[InitialDictPos := x], InitialDictPos + 1, output + [x])
    ensures ValidState(input, lit) && BlockLoop(input, 4, StartBlock(pos + 2, output)) == BlockLoop(input, 4, lit)
  {
    var w: seq<u8> := [0x00, 0x04, 0x01, x, 0xEE, 0xF0];
    WindowAt(input, pos, w, 2);
    WindowAt(input, pos, w, 3);
    InDictionary(InitialDictPos + 1);
    var st0 := StartBlock(pos + 2, output);
    var refilled := RefillStep(input, 4, st0);
    lit := LiteralResult(input, 4, refilled);
    LoopThrough(input, 4, st0, lit);
  }

  /** The second unit of the example: a reference to 4078 of length 3, which ends the block. */
  lemma ExampleRepeat(input: seq<u8>, pos: nat, output: seq<u8>, x: u8, lit: BlockState) returns (s: BlockState)
    requires Window(input, pos, [0x00, 0x04, 0x01, x, 0xEE, 0xF0])
    requires lit == BlockState(pos + 4, 2, 0xFF01, BlankDictionary()[InitialDictPos := x], InitialDictPos + 1, output + [x])
    ensures ValidState(input, lit) && BlockLoop(input, 4, lit) == Ok(s)
    ensures s.pos == pos + 6 && s.output == output + [x, x, x, x]
  {
    var w: seq<u8> := [0x00, 0x04, 0x01, x, 0xEE, 0xF0];
    WindowAt(input, pos, w, 4);
    WindowAt(input, pos, w, 5);
    ReferenceTo4078(input[pos + 4], input[pos + 5]);
    InDictionary(InitialDictPos);
    InDictionary(InitialDictPos + 1);
    var st := ShiftStep(input, 4, lit);
    var c := BackReferenceResult(input, 4, st);
    CopyRepeats(st.dict, st.writePos, st.output, RefPosition(input[pos + 4], input[pos + 5]), 3, x);
    s := st.(pos := pos + 6, bytesRead := 4, dict := c.0, writePos := c.1, output := c.2);
    LoopThrough(input, 4, lit, s);
    LoopEnds(input, 4, s);
    RepeatFour(output, x);
  }

  lemma RepeatFour(output: seq<u8>, x: u8)
    ensures output + [x] + Repeat(x, 3) == output + [x, x, x, x]
  {
  }

  /** The code bytes 0xEE 0xF0 of the examples: a reference to 4078 of length 3. */
  lemma ReferenceTo4078(b1: u8, b2: u8)
    requires b1 == 0xEE && b2 == 0xF0
    ensures RefPosition(b1, b2) == InitialDictPos && RefLength(b2) + 1 == 3
  {
  }

  /** Byte `i` of a window. */
  lemma WindowAt(input: seq<u8>, pos: nat, code: seq<u8>, i: nat)
    requires Window(input, pos, code) && i < |code|
    ensures input[pos + i] == code[i]
  {
    assert input[pos..pos + |code|][i] == code[i];
  }

  /** A unit whose flag register has run out: it refills from the next code byte. */
  lemma RefillStep(input: seq<u8>, n: nat, st: BlockState) returns (refilled: BlockState)
    requires ValidState(input, st) && st.bytesRead + 1 <= n && st.pos < |input|
    requires st.flags / 2 / 0x100 % 2 == 0
    ensures refilled == st.(pos := st.pos + 1, bytesRead := st.bytesRead + 1,
                            flags := (input[st.pos] as int) + 0xFF00)
    ensures ValidState(input, refilled) && Step(input, n, st) == DecodeUnit(input, n, refilled)
  {
    refilled := st.(pos := st.pos + 1, bytesRead := st.bytesRead + 1, flags := (input[st.pos] as int) + 0xFF00);
  }

  /** A unit whose flag bit is set: the next code byte is a literal. */
  lemma LiteralResult(input: seq<u8>, n: nat, st: BlockState) returns (next: BlockState)
    requires ValidState(input, st) && st.bytesRead <= n && st.flags % 2 == 1 && st.pos < |input|
    ensures next == AfterLiteral(st, 1, st.flags, input[st.pos])
    ensures DecodeUnit(input, n, st) == Next(next)
  {
    next := AfterLiteral(st, 1, st.flags, input[st.pos]);
  }

  /** A unit whose flag register still holds a flag: it only shifts. */
  lemma ShiftStep(input: seq<u8>, n: nat, st: BlockState) returns (shifted: BlockState)
    requires ValidState(input, st) && st.bytesRead < n
    requires st.flags / 2 / 0x100 % 2 == 1
    ensures shifted == st.(flags := st.flags / 2)
    ensures ValidState(input, shifted) && Step(input, n, st) == DecodeUnit(input, n, shifted)
  {
    shifted := st.(flags := st.flags / 2);
  }

  /** A unit that goes on: the loop continues from its state. */
  lemma LoopThrough(input: seq<u8>, n: nat, st: BlockState, s: BlockState)
    requires ValidState(input, st) && st.bytesRead < n && Step(input, n, st) == Next(s)
    ensures BlockLoop(input, n, st) == BlockLoop(input, n, s)
  {
  }

  /** Once the declared length is used up, the loop ends where it is. */
  lemma LoopEnds(input: seq<u8>, n: nat, s: BlockState)
    requires ValidState(input, s) && n <= s.bytesRead <= n + 1
    ensures BlockLoop(input, n, s) == Ok(s)
  {
  }

  lemma OverlappingReference()
    ensures Decompressed([0x00, 0x04, 0x01, 0x41, 0xEE, 0xF0]) == Ok([0x41, 0x41, 0x41, 0x41])
  {
    var input: seq<u8> := [0x00, 0x04, 0x01, 0x41, 0xEE, 0xF0];
    assert input[0..6] == input;
    RepeatedLiteral(input, 0, [], 0x41);
    var out: seq<u8> := [0x41, 0x41, 0x41, 0x41];
    assert [] + [0x41, 0x41, 0x41, 0x41] == out;
    assert Blocks(input, 6, out) == Ok(out);
  }

  /**
    Nothing carries over between compressed blocks: the same reference to 4078
    that read 'A' inside the first block reads a space in the second.
  */
  lemma DictionaryResetsPerBlock()
    ensures Decompressed([0x00, 0x04, 0x01, 0x41, 0xEE, 0xF0, 0x00, 0x03, 0x00, 0xEE, 0xF0])
         == Ok([0x41, 0x41, 0x41, 0x41, 0x20, 0x20, 0x20])
  {
    var input: seq<u8> := [0x00, 0x04, 0x01, 0x41, 0xEE, 0xF0, 0x00, 0x03, 0x00, 0xEE, 0xF0];
    var first: seq<u8> := [0x41, 0x41, 0x41, 0x41];
    TwoBlocks(input, first);
    BothBlocks(first, [0x20, 0x20, 0x20]);
  }

  /** The two blocks of the example, one after the other. */
  lemma TwoBlocks(input: seq<u8>, first: seq<u8>)
    requires |input| == 11
    requires Window(input, 0, [0x00, 0x04, 0x01, 0x41, 0xEE, 0xF0])
    requires Window(input, 6, [0x00, 0x03, 0x00, 0xEE, 0xF0])
    requires first == [0x41, 0x41, 0x41, 0x41]
    ensures Decompressed(input) == Ok(first + [0x20, 0x20, 0x20])
  {
    RepeatedLiteral(input, 0, [], 0x41);
    assert [] + [0x41, 0x41, 0x41, 0x41] == first;
    FreshReference(input, 6, first);
  }

  lemma BothBlocks(first: seq<u8>, second: seq<u8>)
    requires first == [0x41, 0x41, 0x41, 0x41] && second == [0x20, 0x20, 0x20]
    ensures first + second == [0x41, 0x41, 0x41, 0x41, 0x20, 0x20, 0x20]
  {
  }
}
