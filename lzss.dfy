/**
  The LZSS decoder of DAT1 archives (`lzss::decompress`).

  The input is a sequence of blocks, each headed by a big-endian `i16` length
  `n`: 0 ends the stream, a negative `n` is followed by `-n` bytes copied
  verbatim, and a positive `n` is followed by `n` bytes of LZSS code decoded
  against a 4096-byte circular dictionary that every such block starts afresh
  (all spaces, write position 4078).

  `Decompressed` states the decoder one loop iteration at a time, and the
  method `Decompress`, which keeps the dictionary in an array as the source
  does, is proved to compute it.
*/
module Lzss {
  import opened Wrappers
  import opened Bytes

  /** `DICT_SIZE` */
  const DictSize: nat := 4096
  /** `MIN_MATCH`: the shortest copy a back-reference makes. */
  const MinMatch: nat := 3
  /** `MAX_MATCH`: the longest copy a back-reference makes. */
  const MaxMatch: nat := 18
  /** `INITIAL_DICT_POS` */
  const InitialDictPos: nat := DictSize - MaxMatch

  /** The dictionary fill byte, an ASCII space. */
  const Space: u8 := 0x20

  datatype LzssError =
    | ShortUncompressedRun   // fewer than -n bytes follow a negative block length
    | ShortLiteral           // the stream ends where a literal byte is due
    | ShortReferenceByte1    // the stream ends where a back-reference is due
    | ShortReferenceByte2    // the stream ends inside a back-reference
    | BlockLengthOverflow    // n == -32768, whose negation overflows `i16` (a panic in the source)

  /**
    The variables of the inner decoding loop: the cursor into the whole input,
    `bytes_read` within the block, the flag register, the dictionary and its
    write position, and the output produced so far by the whole call.
  */
  datatype BlockState = BlockState(
    pos: nat,
    bytesRead: nat,
    flags: u16,
    dict: seq<u8>,
    writePos: nat,
    output: seq<u8>)

  ghost predicate ValidState(input: seq<u8>, st: BlockState) {
    st.pos <= |input| && |st.dict| == DictSize && st.writePos < DictSize
  }

  function BlankDictionary(): (d: seq<u8>)
    ensures |d| == DictSize && forall i :: 0 <= i < DictSize ==> d[i] == Space
  {
    seq(DictSize, _ => Space)
  }

  /** The state every positive block starts from: nothing carries over but the output. */
  function StartBlock(pos: nat, output: seq<u8>): BlockState {
    BlockState(pos, 0, 0, BlankDictionary(), InitialDictPos, output)
  }

  /**
    `b1 | ((b2 & 0xF0) << 4)`: the dictionary position a back-reference reads
    from, the low byte from `b1` and the high nibble from the top of `b2`.
  */
  function RefPosition(b1: u8, b2: u8): (p: nat)
    ensures p < DictSize
  {
    b1 + (b2 / 16) * 256
  }

  /**
    `(b2 & 0x0F) + 2`: the source's `match_length`, taken from the low nibble of
    `b2`; the copy makes one byte more than this.
  */
  function RefLength(b2: u8): (n: nat)
    ensures MinMatch <= n + 1 <= MaxMatch
  {
    b2 % 16 + 2
  }

  /**
    The copy loop of a back-reference: `count` bytes read from the dictionary
    starting at `readPos`, each appended to the output and written back at the
    write position, indices taken modulo the dictionary size.
  */
  function CopyMatch(dict: seq<u8>, writePos: nat, output: seq<u8>, readPos: nat, count: nat)
    : (r: (seq<u8>, nat, seq<u8>))
    requires |dict| == DictSize && writePos < DictSize
    ensures |r.0| == DictSize && r.1 == (writePos + count) % DictSize
    ensures |r.2| == |output| + count
    decreases count
  {
    if count == 0 then (dict, writePos, output)
    else
      var b := dict[readPos % DictSize];
      CopyMatch(dict[writePos := b], (writePos + 1) % DictSize, output + [b], readPos + 1, count - 1)
  }

  /** What one iteration of the inner loop does: go on, leave the block, or fail. */
  datatype StepOutcome = Next(st: BlockState) | Stop(st: BlockState) | Fail(error: LzssError)

  /** Decoding one unit once the flag bit for it is in bit 0 of the flag register. */
  function DecodeUnit(input: seq<u8>, n: nat, st: BlockState): (r: StepOutcome)
    requires ValidState(input, st) && st.bytesRead <= n
    ensures r.Next? ==> ValidState(input, r.st) && st.pos < r.st.pos
    ensures r.Next? ==> st.bytesRead < r.st.bytesRead <= n + 1 && r.st.flags == st.flags
    ensures r.Stop? ==> r.st == st
  {
    if st.flags % 2 != 0 then
      if st.pos >= |input| then Fail(ShortLiteral)
      else
        var b := input[st.pos];
        Next(st.(pos := st.pos + 1, bytesRead := st.bytesRead + 1, output := st.output + [b],
                 dict := st.dict[st.writePos := b], writePos := (st.writePos + 1) % DictSize))
    else if st.bytesRead + 1 >= n then Stop(st)
    else if st.pos >= |input| then Fail(ShortReferenceByte1)
    else if st.pos + 1 >= |input| then Fail(ShortReferenceByte2)
    else
      var b1 := input[st.pos];
      var b2 := input[st.pos + 1];
      var copied := CopyMatch(st.dict, st.writePos, st.output, RefPosition(b1, b2), RefLength(b2) + 1);
      Next(st.(pos := st.pos + 2, bytesRead := st.bytesRead + 2,
               dict := copied.0, writePos := copied.1, output := copied.2))
  }

  /**
    One iteration of the inner loop: shift the flag register, refill it from
    the stream when bit 8 has run out (leaving the block at the end of the
    input or when the flag byte was past the block), then decode one unit.
  */
  function Step(input: seq<u8>, n: nat, st: BlockState): (r: StepOutcome)
    requires ValidState(input, st) && st.bytesRead < n
    ensures r.Next? ==> ValidState(input, r.st) && st.pos < r.st.pos
    ensures r.Next? ==> st.bytesRead < r.st.bytesRead <= n + 1
    ensures r.Stop? ==> ValidState(input, r.st) && st.pos <= r.st.pos
  {
    var flags := st.flags / 2;
    if flags / 0x100 % 2 == 0 then
      if st.pos >= |input| then Stop(st.(flags := flags))
      else
        var c := input[st.pos];
        var refilled := st.(pos := st.pos + 1, bytesRead := st.bytesRead + 1,
                            flags := (c as int) + 0xFF00);
        if refilled.bytesRead > n then Stop(refilled) else DecodeUnit(input, n, refilled)
    else DecodeUnit(input, n, st.(flags := flags))
  }

  /** The inner `loop` of a positive block of declared length `n`. */
  function BlockLoop(input: seq<u8>, n: nat, st: BlockState): (r: Result<BlockState, LzssError>)
    requires ValidState(input, st) && st.bytesRead <= n + 1
    ensures r.Ok? ==> ValidState(input, r.value) && st.pos <= r.value.pos
    decreases n + 1 - st.bytesRead
  {
    if st.bytesRead >= n then Ok(st)
    else
      match Step(input, n, st)
      case Fail(e) => Err(e)
      case Stop(s) => Ok(s)
      case Next(s) => BlockLoop(input, n, s)
  }

  /** The outer `while let` over block headers, from cursor `pos` with `output` so far. */
  function Blocks(input: seq<u8>, pos: nat, output: seq<u8>): (r: Result<seq<u8>, LzssError>)
    requires pos <= |input|
    decreases |input| - pos
  {
    if pos + 2 > |input| then Ok(output)
    else
      var n := ReadI16BE(input, pos);
      if n == 0 then Ok(output)
      else if n < 0 then
        if n == -0x8000 then Err(BlockLengthOverflow)
        else if pos + 2 - n > |input| then Err(ShortUncompressedRun)
        else Blocks(input, pos + 2 - n, output + input[pos + 2..pos + 2 - n])
      else
        match BlockLoop(input, n, StartBlock(pos + 2, output))
        case Err(e) => Err(e)
        case Ok(st) => Blocks(input, st.pos, st.output)
  }

  /** The result of `lzss::decompress` on `compressedData`. */
  function Decompressed(compressedData: seq<u8>): (r: Result<seq<u8>, LzssError>)
    ensures |compressedData| < 2 ==> r == Ok([])
  {
    if |compressedData| == 0 then Ok([]) else Blocks(compressedData, 0, [])
  }

  /**
    The copy loop of one back-reference on the dictionary array: `matchLength + 1`
    bytes, each appended to the output and written back at the write position.
  */
  method CopyReference(dictionary: array<u8>, writePos: nat, output: seq<u8>, readPos: nat, matchLength: nat)
    returns (newWritePos: nat, newOutput: seq<u8>)
    requires dictionary.Length == DictSize && writePos < DictSize
    modifies dictionary
    ensures (dictionary[..], newWritePos, newOutput)
         == CopyMatch(old(dictionary[..]), writePos, output, readPos, matchLength + 1)
  {
    ghost var copied := CopyMatch(dictionary[..], writePos, output, readPos, matchLength + 1);
    newWritePos, newOutput := writePos, output;
    for offset := 0 to matchLength + 1
      invariant newWritePos < DictSize
      invariant copied == CopyMatch(dictionary[..], newWritePos, newOutput,
                                    readPos + offset, matchLength + 1 - offset)
    {
      var byte := dictionary[(readPos + offset) % DictSize];
      newOutput := newOutput + [byte];
      dictionary[newWritePos] := byte;
      newWritePos := (newWritePos + 1) % DictSize;
    }
  }

  /** How decoding one unit in place ended: the loop goes on, the block ends, or the call fails. */
  datatype UnitResult =
    | Continued(pos: nat, bytesRead: nat, writePos: nat, output: seq<u8>)
    | Left
    | Failed(error: LzssError)

  /** The literal or back-reference branch of the inner loop, on the dictionary array. */
  method DecodeUnitInPlace(input: seq<u8>, n: nat, pos: nat, bytesRead: nat, flags: u16,
                           writePos: nat, output: seq<u8>, dictionary: array<u8>)
    returns (u: UnitResult)
    requires dictionary.Length == DictSize
    requires ValidState(input, BlockState(pos, bytesRead, flags, dictionary[..], writePos, output))
    requires bytesRead <= n
    modifies dictionary
    ensures var d := DecodeUnit(input, n, BlockState(pos, bytesRead, flags, old(dictionary[..]), writePos, output));
            && (u.Failed? ==> d == Fail(u.error))
            && (u.Left? ==> d.Stop? && dictionary[..] == old(dictionary[..]))
            && (u.Continued? ==> d == Next(BlockState(u.pos, u.bytesRead, flags, dictionary[..], u.writePos, u.output)))
  {
    if flags % 2 != 0 {
      if pos >= |input| {
        return Failed(ShortLiteral);
      }
      var b := input[pos];
      dictionary[writePos] := b;
      return Continued(pos + 1, bytesRead + 1, (writePos + 1) % DictSize, output + [b]);
    }
    if bytesRead + 1 >= n {
      return Left;
    }
    if pos >= |input| {
      return Failed(ShortReferenceByte1);
    }
    if pos + 1 >= |input| {
      return Failed(ShortReferenceByte2);
    }
    var byte1 := input[pos];
    var byte2 := input[pos + 1];
    var w, out := CopyReference(dictionary, writePos, output, RefPosition(byte1, byte2), RefLength(byte2));
    return Continued(pos + 2, bytesRead + 2, w, out);
  }

  /** How one iteration of the inner loop ended: the loop goes on, the block ends, or the call fails. */
  datatype IterationResult =
    | Go(pos: nat, bytesRead: nat, flags: u16, writePos: nat, output: seq<u8>)
    | Halt(pos: nat, output: seq<u8>)
    | Broke(error: LzssError)

  /**
    One iteration of the inner loop on the dictionary array: shift the flag
    register, refill it from the next code byte once bit 8 has run out, then
    decode one unit.
  */
  method IterateInPlace(input: seq<u8>, n: nat, pos: nat, bytesRead: nat, flags: u16,
                        writePos: nat, output: seq<u8>, dictionary: array<u8>)
    returns (r: IterationResult)
    requires dictionary.Length == DictSize
    requires ValidState(input, BlockState(pos, bytesRead, flags, dictionary[..], writePos, output))
    requires bytesRead < n
    modifies dictionary
    ensures var d := Step(input, n, BlockState(pos, bytesRead, flags, old(dictionary[..]), writePos, output));
            && (r.Broke? ==> d == Fail(r.error))
            && (r.Halt? ==> d.Stop? && d.st.pos == r.pos && d.st.output == r.output)
            && (r.Go? ==> d == Next(BlockState(r.pos, r.bytesRead, r.flags, dictionary[..], r.writePos, r.output)))
  {
    var shifted := flags / 2;
    var p, read := pos, bytesRead;
    if shifted / 0x100 % 2 == 0 {
      if p >= |input| {
        return Halt(p, output);
      }
      var c := input[p];
      shifted := (c as int) + 0xFF00;
      p, read := p + 1, read + 1;
      if read > n {
        // The loop guard leaves room for the flag byte, so this exit is never taken.
        assert false;
      }
    }
    var unit := DecodeUnitInPlace(input, n, p, read, shifted, writePos, output, dictionary);
    match unit
    case Failed(e) => return Broke(e);
    case Left => return Halt(p, output);
    case Continued(p', read', w, out) => return Go(p', read', shifted, w, out);
  }

  /**
    One positive block of declared length `n` whose code starts at `codeStart`:
    the dictionary is reset, then the inner loop runs. Returns the cursor after
    the block and the output extended by it.
  */
  method DecodeBlock(input: seq<u8>, codeStart: nat, n: nat, outputBefore: seq<u8>, dictionary: array<u8>)
    returns (r: Result<(nat, seq<u8>), LzssError>)
    requires codeStart <= |input| && dictionary.Length == DictSize
    modifies dictionary
    ensures var spec := BlockLoop(input, n, StartBlock(codeStart, outputBefore));
            && (r.Ok? <==> spec.Ok?)
            && (r.Ok? ==> r.value == (spec.value.pos, spec.value.output))
            && (r.Err? ==> r.error == spec.error)
  {
    forall i | 0 <= i < dictionary.Length {
      dictionary[i] := Space;
    }
    assert dictionary[..] == BlankDictionary();
    var pos: nat, bytesRead: nat, flags: u16 := codeStart, 0, 0;
    var dictWritePos: nat, output := InitialDictPos, outputBefore;
    ghost var start := BlockState(pos, bytesRead, flags, dictionary[..], dictWritePos, output);

    while bytesRead < n
      invariant ValidState(input, BlockState(pos, bytesRead, flags, dictionary[..], dictWritePos, output))
      invariant bytesRead <= n + 1
      invariant BlockLoop(input, n, start)
             == BlockLoop(input, n, BlockState(pos, bytesRead, flags, dictionary[..], dictWritePos, output))
      decreases n + 1 - bytesRead
    {
      var step := IterateInPlace(input, n, pos, bytesRead, flags, dictWritePos, output, dictionary);
      match step
      case Broke(e) => return Err(e);
      case Halt(p, out) => return Ok((p, out));
      case Go(p, read, fl, w, out) =>
        pos, bytesRead, flags, dictWritePos, output := p, read, fl, w, out;
    }
    return Ok((pos, output));
  }

  /** `lzss::decompress` */
  method Decompress(compressedData: seq<u8>) returns (r: Result<seq<u8>, LzssError>)
    ensures r == Decompressed(compressedData)
  {
    if |compressedData| == 0 {
      return Ok([]);
    }
    var input := compressedData;
    var pos := 0;
    var output: seq<u8> := [];
    var dictionary := new u8[DictSize](_ => 0);

    while pos + 2 <= |input|
      invariant pos <= |input|
      invariant Decompressed(input) == Blocks(input, pos, output)
      decreases |input| - pos
    {
      var blockSize := ReadI16BE(input, pos);
      if blockSize == 0 {
        break;
      }
      if blockSize < 0 {
        if blockSize == -0x8000 {
          return Err(BlockLengthOverflow);
        }
        var bytesToRead := -blockSize;
        if pos + 2 + bytesToRead > |input| {
          return Err(ShortUncompressedRun);
        }
        output := output + input[pos + 2..pos + 2 + bytesToRead];
        pos := pos + 2 + bytesToRead;
      } else {
        var block := DecodeBlock(input, pos + 2, blockSize, output, dictionary);
        if block.Err? {
          return Err(block.error);
        }
        pos, output := block.value.0, block.value.1;
      }
    }
    return Ok(output);
  }
}
