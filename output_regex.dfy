/** The bit-pattern matcher of `VerifyOutput` tags
    (services/lib/kali/COMMON/VerifyOutputRegex.py).

    A pattern is a `bytes` value of blocks separated by `|`, each written
    `<format><length>/<value>` with format `B` (bytes), `n` (nibbles) or `b`
    (bits).  Construction unrolls the pattern into a string of `0`, `1` and
    `*` symbols, one per bit; `checkValue` then compares a value bit by bit,
    `*` matching either bit. */
module OutputRegex {
  import opened Wrappers
  import opened Bytes
  import opened Text

  const Star: Byte := 0x2A    // '*'
  const Under: Byte := 0x5F   // '_'
  const Zero: Byte := 0x30    // '0'
  const One: Byte := 0x31     // '1'
  const Bar: Byte := 0x7C     // '|', between blocks
  const Slash: Byte := 0x2F   // '/', between length and value

  /** `allowed_format`: `B`, `n`, `b`. */
  const FormatLetters: Bytes := [0x42, 0x6E, 0x62]

  datatype Format = ByteFormat | NibbleFormat | BinaryFormat

  function FormatOf(c: Byte): (r: Option<Format>)
    ensures r.Some? <==> c in FormatLetters
  {
    if c == 0x42 then Some(ByteFormat)
    else if c == 0x6E then Some(NibbleFormat)
    else if c == 0x62 then Some(BinaryFormat)
    else None
  }

  /** Bits per digit of a format. */
  function Width(f: Format): nat
  {
    match f
    case ByteFormat => 8
    case NibbleFormat => 4
    case BinaryFormat => 1
  }

  /** `n * b'*'` (empty for `n <= 0`). */
  function Stars(n: int): (r: Bytes)
    ensures |r| == if n <= 0 then 0 else n
    ensures forall k :: 0 <= k < |r| ==> r[k] == Star
  {
    if n <= 0 then [] else [Star] + Stars(n - 1)
  }

  /** `format(n, '0<w>b').encode()` for `n < 2^w`: `w` binary digits, most
      significant first. */
  function Binary(n: nat, w: nat): (r: Bytes)
    ensures |r| == w
    ensures forall k :: 0 <= k < |r| ==> r[k] == Zero || r[k] == One
  {
    if w == 0 then [] else Binary(n / 2, w - 1) + [if n % 2 == 0 then Zero else One]
  }

  /** The number a string of binary digits denotes: the reference reading
      of `Binary`. */
  function BitsValue(s: Bytes): nat
  {
    if s == [] then 0 else 2 * BitsValue(s[..|s| - 1]) + (if s[|s| - 1] == One then 1 else 0)
  }

  lemma {:induction false} BinaryRoundTrip(n: nat, w: nat)
    requires n < Pow2(w)
    ensures BitsValue(Binary(n, w)) == n
  {
    if w > 0 {
      var r := Binary(n, w);
      assert r[..|r| - 1] == Binary(n / 2, w - 1);
      BinaryRoundTrip(n / 2, w - 1);
    }
  }

  /** `int(c, 16)` for a hexadecimal digit. */
  function HexValue(c: Byte): Option<nat>
  {
    if 0x30 <= c <= 0x39 then Some(c - 0x30)
    else if 0x61 <= c <= 0x66 then Some(c - 0x61 + 10)
    else if 0x41 <= c <= 0x46 then Some(c - 0x41 + 10)
    else None
  }

  /** `bytes_allowed`: ASCII letters, digits and punctuation, that is every
      printable character but the space. */
  predicate ByteAllowed(c: Byte)
  {
    0x21 <= c <= 0x7E
  }

  /** `s.lstrip(chars)` */
  function LStrip(s: Bytes, chars: Bytes): (r: Bytes)
    ensures |r| <= |s| && r == s[|s| - |r|..]
    ensures r == [] || r[0] !in chars
  {
    if s != [] && s[0] in chars then LStrip(s[1..], chars) else s
  }

  // ---------------------------------------------------------------------------
  // Blocks

  /** A parsed block: its format, its declared length and its value. */
  datatype Block = Block(format: Format, len: int, value: Bytes)

  /** What the checks of a block guarantee. */
  predicate ValidBlock(b: Block)
  {
    && (b.format == NibbleFormat ==> b.len % 2 == 0)
    && (b.format == BinaryFormat ==> b.len % 8 == 0)
    && Count(b.value, Under) <= 1
    && |b.value| <= b.len
  }

  /** The checks of one block, in the order the constructor makes them: not
      empty, a known format letter, an integer length once the leading format
      letters are stripped, an even nibble length, a whole number of bytes in
      binary, at most one `_`, and no more digits than the length.  A block
      without `/` fails on the missing value with an IndexError. */
  function ParseBlock(block: Bytes): (r: Result<Block, Exc>)
    ensures r.Err? ==> r.error == ValueError || (r.error == IndexError && Slash !in block)
    ensures r.Ok? ==> ValidBlock(r.value) && |block| > 0 && FormatOf(block[0]) == Some(r.value.format)
    ensures |block| == 0 || FormatOf(block[0]).None? ==> r == Err(ValueError)
  {
    if |block| == 0 then Err(ValueError)
    else
      match FormatOf(block[0])
      case None => Err(ValueError)
      case Some(f) =>
        var parts := Split(block, Slash);
        match ParseInt(Latin1(LStrip(parts[0], FormatLetters)))
        case None => Err(ValueError)
        case Some(len) =>
          if f == NibbleFormat && len % 2 != 0 then Err(ValueError)
          else if f == BinaryFormat && len % 8 != 0 then Err(ValueError)
          else if |parts| < 2 then
            SplitParts(block, Slash);
            assert Count(block, Slash) == 0;
            CountIn(block, Slash);
            Err(IndexError)
          else
            var value := parts[1];
            SplitParts(value, Under);
            if |Split(value, Under)| > 2 then Err(ValueError)
            else if |value| > len then Err(ValueError)
            else Ok(Block(f, len, value))
  }

  lemma {:induction false} CountIn(s: Bytes, x: Byte)
    ensures x in s <==> Count(s, x) > 0
    decreases |s|
  {
    if s != [] {
      CountIn(s[1..], x);
      assert s == [s[0]] + s[1..];
    }
  }

  /** `_skip_sequence(format, (block_len, block_value))`: as many stars as
      bits the digits of the value leave uncovered, one digit's worth when
      that is none. */
  function SkipSequence(f: Format, blockLen: int, blockValue: Bytes): (r: Bytes)
    ensures forall k :: 0 <= k < |r| ==> r[k] == Star
    ensures blockLen == 0 && blockValue == [] ==> |r| == Width(f)
  {
    var sequenceLen := blockLen - SumLengths(Split(blockValue, Under));
    var empty: seq<Bytes> := [[]];
    assert blockValue == [] ==> Split(blockValue, Under) == empty && SumLengths(empty) == 0;
    Stars(if sequenceLen == 0 then Width(f) else Width(f) * sequenceLen)
  }

  /** The bits of one digit of a block, `None` when the format does not
      allow the character. */
  function DigitBits(f: Format, c: Byte): (r: Option<Bytes>)
    ensures r.Some? ==> |r.value| == Width(f)
  {
    match f
    case ByteFormat => if ByteAllowed(c) then Some(Binary(c, 8)) else None
    case NibbleFormat => if HexValue(c).Some? then Some(Binary(HexValue(c).value, 4)) else None
    case BinaryFormat => if c == Zero || c == One then Some([c]) else None
  }

  /** What one character of a block's value unrolls to. */
  function UnrollChar(b: Block, c: Byte): Result<Bytes, Exc>
  {
    if c == Star then Ok(SkipSequence(b.format, 0, []))
    else if c == Under then Ok(SkipSequence(b.format, b.len, b.value))
    else
      match DigitBits(b.format, c)
      case None => Err(ValueError)
      case Some(bits) => Ok(bits)
  }

  /** The first `n` characters of a block's value, unrolled in order. */
  function UnrollValue(b: Block, n: nat): (r: Result<Bytes, Exc>)
    requires n <= |b.value|
    ensures r.Err? ==> r.error == ValueError
  {
    if n == 0 then Ok([])
    else
      match UnrollValue(b, n - 1)
      case Err(e) => Err(e)
      case Ok(u) =>
        match UnrollChar(b, b.value[n - 1])
        case Err(e) => Err(e)
        case Ok(x) => Ok(u + x)
  }

  /** The blocks, parsed and unrolled in order; the first failing block
      decides the error. */
  function UnrollBlocks(blocks: seq<Bytes>): (r: Result<Bytes, Exc>)
    ensures r.Err? ==> r.error == ValueError || r.error == IndexError
  {
    if blocks == [] then Ok([])
    else
      match UnrollBlocks(blocks[..|blocks| - 1])
      case Err(e) => Err(e)
      case Ok(u) => AppendBlock(u, blocks[|blocks| - 1])
  }

  /** One block parsed, unrolled and appended to `u`. */
  function AppendBlock(u: Bytes, block: Bytes): Result<Bytes, Exc>
  {
    match ParseBlock(block)
    case Err(e) => Err(e)
    case Ok(b) =>
      match UnrollValue(b, |b.value|)
      case Err(e) => Err(e)
      case Ok(x) => Ok(u + x)
  }

  /** `VerifyOutputRegex(regex)`: ValueError unless `regex` is `bytes`. */
  function Unroll(regex: Dyn<Bytes>): (r: Result<Bytes, Exc>)
    ensures regex.Other? ==> r == Err(ValueError)
    ensures regex == Is([]) ==> r == Err(ValueError)
    ensures r.Err? ==> r.error == ValueError || r.error == IndexError
  {
    match regex
    case Other => Err(ValueError)
    case Is(r) =>
      assert r == [] ==> Split(r, Bar) == [[]] && UnrollBlocks([[]]) == AppendBlock([], []);
      UnrollBlocks(Split(r, Bar))
  }

  /** A constructed matcher. */
  datatype Matcher = Matcher(regex: Bytes, unrolled: Bytes)

  /** The constructor: every block is checked, then each character of its
      value is appended, unrolled, to the pattern. */
  method Compile(regex: Dyn<Bytes>) returns (r: Result<Matcher, Exc>)
    ensures r.Err? <==> Unroll(regex).Err?
    ensures r.Err? ==> r.error == Unroll(regex).error
    ensures r.Ok? ==> r.value == Matcher(regex.v, Unroll(regex).value)
  {
    if regex.Other? {
      return Err(ValueError);
    }
    var blocks := Split(regex.v, Bar);
    var unrolled: Bytes := [];
    var i := 0;
    while i < |blocks|
      invariant 0 <= i <= |blocks|
      invariant UnrollBlocks(blocks[..i]) == Ok(unrolled)
    {
      var parsed := ParseBlock(blocks[i]);
      if parsed.Err? {
        BlocksStep(blocks, i, unrolled);
        return Err(parsed.error);
      }
      var x := UnrollBlockValue(unrolled, parsed.value);
      BlocksStep(blocks, i, unrolled);
      if x.Err? {
        return Err(x.error);
      }
      unrolled := x.value;
      i := i + 1;
    }
    assert blocks[..i] == blocks;
    return Ok(Matcher(regex.v, unrolled));
  }

  /** One iteration of the constructor's loop over the blocks. */
  lemma BlocksStep(blocks: seq<Bytes>, i: nat, unrolled: Bytes)
    requires i < |blocks| && UnrollBlocks(blocks[..i]) == Ok(unrolled)
    ensures UnrollBlocks(blocks[..i + 1]) == AppendBlock(unrolled, blocks[i])
    ensures AppendBlock(unrolled, blocks[i]).Err? ==> UnrollBlocks(blocks) == AppendBlock(unrolled, blocks[i])
  {
    SliceSnoc(blocks, i);
    BlocksSnoc(blocks[..i + 1], blocks[..i], blocks[i], unrolled);
    if AppendBlock(unrolled, blocks[i]).Err? {
      BlocksStepErr(blocks, i, AppendBlock(unrolled, blocks[i]));
    }
  }

  lemma SliceSnoc(blocks: seq<Bytes>, i: nat)
    requires i < |blocks|
    ensures blocks[..i + 1] == blocks[..i] + [blocks[i]]
  {
  }

  /** `UnrollBlocks` on a list one block longer. */
  lemma BlocksSnoc(blocks: seq<Bytes>, pre: seq<Bytes>, last: Bytes, u: Bytes)
    requires blocks == pre + [last] && UnrollBlocks(pre) == Ok(u)
    ensures UnrollBlocks(blocks) == AppendBlock(u, last)
  {
    assert blocks[..|blocks| - 1] == pre;
  }

  lemma BlocksStepErr(blocks: seq<Bytes>, i: nat, r: Result<Bytes, Exc>)
    requires i < |blocks| && UnrollBlocks(blocks[..i + 1]) == r && r.Err?
    ensures UnrollBlocks(blocks) == r
  {
    BlocksErrorSticks(blocks, i + 1);
  }

  /** The inner loop of the constructor: the characters of one block's
      value, unrolled and appended to `unrolled`. */
  method UnrollBlockValue(unrolled: Bytes, b: Block) returns (r: Result<Bytes, Exc>)
    ensures r.Err? <==> UnrollValue(b, |b.value|).Err?
    ensures r.Err? ==> r.error == ValueError && UnrollValue(b, |b.value|).error == ValueError
    ensures r.Ok? ==> r.value == unrolled + UnrollValue(b, |b.value|).value
  {
    var acc := unrolled;
    var j := 0;
    while j < |b.value|
      invariant 0 <= j <= |b.value|
      invariant UnrollValue(b, j).Ok? && acc == unrolled + UnrollValue(b, j).value
    {
      ValueStep(b, j);
      var c := b.value[j];
      var piece: Bytes;
      if c == Star {
        piece := SkipSequence(b.format, 0, []);
      } else if c == Under {
        piece := SkipSequence(b.format, b.len, b.value);
      } else {
        var bits := DigitBits(b.format, c);
        if bits.None? {
          return Err(ValueError);
        }
        piece := bits.value;
      }
      AppendPiece(unrolled, UnrollValue(b, j).value, piece);
      acc := acc + piece;
      j := j + 1;
    }
    return Ok(acc);
  }

  lemma AppendPiece(a: Bytes, u: Bytes, x: Bytes)
    ensures a + u + x == a + (u + x)
  {
  }

  /** One iteration of the constructor's loop over a block's value. */
  lemma ValueStep(b: Block, j: nat)
    requires j < |b.value| && UnrollValue(b, j).Ok?
    ensures UnrollChar(b, b.value[j]).Ok? ==>
      UnrollValue(b, j + 1) == Ok(UnrollValue(b, j).value + UnrollChar(b, b.value[j]).value)
    ensures UnrollChar(b, b.value[j]).Err? ==> UnrollValue(b, |b.value|) == Err(ValueError)
  {
    if UnrollChar(b, b.value[j]).Err? {
      ValueErrorSticks(b, j + 1);
    }
  }

  /** An error in the first `n` characters is the error of the whole block. */
  lemma {:induction false} ValueErrorSticks(b: Block, n: nat)
    requires n <= |b.value| && UnrollValue(b, n).Err?
    ensures UnrollValue(b, |b.value|) == UnrollValue(b, n)
    decreases |b.value| - n
  {
    if n < |b.value| {
      ValueErrorSticks(b, n + 1);
    }
  }

  /** An error in the first `n` blocks is the error of the whole pattern. */
  lemma {:induction false} BlocksErrorSticks(blocks: seq<Bytes>, n: nat)
    requires n <= |blocks| && UnrollBlocks(blocks[..n]).Err?
    ensures UnrollBlocks(blocks) == UnrollBlocks(blocks[..n])
    decreases |blocks| - n
  {
    if n < |blocks| {
      assert blocks[..n + 1][..n] == blocks[..n];
      BlocksErrorSticks(blocks, n + 1);
    } else {
      assert blocks[..n] == blocks;
    }
  }

  // ---------------------------------------------------------------------------
  // Widths of the unrolled pattern

  /** `*` stands for one digit; `_` for the digits the rest of the value
      leaves to reach the declared length (at least one). */
  lemma CharWidth(b: Block, c: Byte)
    requires ValidBlock(b) && c in b.value
    ensures UnrollChar(b, c).Ok? ==>
      |UnrollChar(b, c).value| == if c == Under then Width(b.format) * (b.len - |b.value| + 1) else Width(b.format)
  {
    SplitLengths(b.value, Under);
    SplitLengths<Byte>([], Under);
    if c == Under {
      CountIn(b.value, Under);
    }
  }

  lemma {:induction false} ValueWidth(b: Block, n: nat)
    requires ValidBlock(b) && n <= |b.value|
    ensures UnrollValue(b, n).Ok? ==>
      |UnrollValue(b, n).value| == Width(b.format) * (n + Count(b.value[..n], Under) * (b.len - |b.value|))
  {
    if n == 0 {
      ValueWidthZero(b);
    } else if UnrollValue(b, n).Ok? {
      ValueWidth(b, n - 1);
      ValueWidthStep(b, n);
    }
  }

  lemma ValueWidthZero(b: Block)
    ensures |UnrollValue(b, 0).value| == Width(b.format) * (0 + Count(b.value[..0], Under) * (b.len - |b.value|))
  {
    assert b.value[..0] == [];
  }

  lemma ValueWidthStep(b: Block, n: nat)
    requires ValidBlock(b) && 1 <= n <= |b.value| && UnrollValue(b, n).Ok?
    requires |UnrollValue(b, n - 1).value|
             == Width(b.format) * (n - 1 + Count(b.value[..n - 1], Under) * (b.len - |b.value|))
    ensures |UnrollValue(b, n).value| == Width(b.format) * (n + Count(b.value[..n], Under) * (b.len - |b.value|))
  {
    var c := b.value[n - 1];
    var lu := |UnrollValue(b, n - 1).value|;
    var lx := |UnrollChar(b, c).value|;
    UnrollValueLength(b, n);
    CharWidth(b, c);
    CountStep(b.value, n, Under);
    var k := Count(b.value[..n - 1], Under);
    var cnt := Count(b.value[..n], Under);
    var e := b.len - |b.value|;
    if c == Under {
      WidthStep(Width(b.format), n, k, e, e + 1, 1, cnt, lu, lx);
    } else {
      WidthStep(Width(b.format), n, k, e, 1, 0, cnt, lu, lx);
    }
  }

  lemma UnrollValueLength(b: Block, n: nat)
    requires 1 <= n <= |b.value| && UnrollValue(b, n).Ok?
    ensures UnrollValue(b, n - 1).Ok? && UnrollChar(b, b.value[n - 1]).Ok?
    ensures |UnrollValue(b, n).value| == |UnrollValue(b, n - 1).value| + |UnrollChar(b, b.value[n - 1]).value|
  {
  }

  lemma CountStep(v: Bytes, n: nat, x: Byte)
    requires 1 <= n <= |v|
    ensures Count(v[..n], x) == Count(v[..n - 1], x) + (if v[n - 1] == x then 1 else 0)
  {
    assert v[..n] == v[..n - 1] + [v[n - 1]];
    CountAppend(v[..n - 1], [v[n - 1]], x);
  }

  /** The arithmetic of one step of `ValueWidth`. */
  lemma WidthStep(w: int, n: int, k: int, e: int, digits: int, unders: int, cnt: int, lu: int, lx: int)
    requires digits == 1 + unders * e && cnt == k + unders
    requires lu == w * (n - 1 + k * e) && lx == w * digits
    ensures lu + lx == w * (n + cnt * e)
  {
    assert n - 1 + k * e + digits == n + cnt * e;
  }

  /** A block with a `_` unrolls to exactly `w * length` symbols, `w` being
      the bits per digit; a block without one to `w` per character. */
  lemma BlockWidth(b: Block)
    requires ValidBlock(b)
    ensures UnrollValue(b, |b.value|).Ok? ==>
      |UnrollValue(b, |b.value|).value| == Width(b.format) * (if Under in b.value then b.len else |b.value|)
  {
    var v := b.value;
    ValueWidth(b, |v|);
    assert v[..|v|] == v;
    CountIn(v, Under);
    var e := b.len - |v|;
    if Under in v {
      assert Count(v, Under) == 1;
      assert |v| + 1 * e == b.len;
    } else {
      assert Count(v, Under) == 0;
      assert |v| + 0 * e == |v|;
    }
  }

  /** A digit allowed by its format unrolls to its value in binary: the
      character code for `B`, the hexadecimal value for `n`, the bit for `b`. */
  lemma DigitBitsValue(f: Format, c: Byte)
    requires DigitBits(f, c).Some?
    ensures BitsValue(DigitBits(f, c).value) ==
      match f
      case ByteFormat => c
      case NibbleFormat => HexValue(c).value
      case BinaryFormat => c - Zero
  {
    match f
    case ByteFormat =>
      assert Pow2(8) == 256;
      BinaryRoundTrip(c, 8);
    case NibbleFormat =>
      assert Pow2(4) == 16;
      BinaryRoundTrip(HexValue(c).value, 4);
    case BinaryFormat =>
      assert [c][..0] == [];
  }

  // ---------------------------------------------------------------------------
  // Matching

  /** The bits of a value, eight per byte, most significant first. */
  function BitString(value: Bytes): (r: Bytes)
    ensures |r| == 8 * |value|
  {
    if value == [] then [] else BitString(value[..|value| - 1]) + Binary(value[|value| - 1], 8)
  }

  /** What `checkValue` accepts: with the length check, as many symbols as
      bits; and over the positions both have, every symbol is `*` or the bit. */
  predicate Accepts(pattern: Bytes, bits: Bytes, lenCheck: bool): (r: bool)
    ensures (forall i :: 0 <= i < |pattern| ==> pattern[i] == Star) ==> (r <==> !lenCheck || |pattern| == |bits|)
  {
    && (!lenCheck || |pattern| == |bits|)
    && forall i :: 0 <= i < |pattern| && i < |bits| ==> pattern[i] == Star || pattern[i] == bits[i]
  }

  /** `checkValue(value, len_check)`: ValueError unless `value` is `bytes`. */
  method CheckValue(m: Matcher, value: Dyn<Bytes>, lenCheck: bool) returns (r: Result<bool, Exc>)
    ensures value.Other? ==> r == Err(ValueError)
    ensures value.Is? ==> r.Ok? && (r.value <==> Accepts(m.unrolled, BitString(value.v), lenCheck))
  {
    if value.Other? {
      return Err(ValueError);
    }
    var v := value.v;
    var bits: Bytes := [];
    var k := 0;
    while k < |v|
      invariant 0 <= k <= |v|
      invariant bits == BitString(v[..k])
    {
      assert v[..k + 1][..k] == v[..k];
      bits := bits + Binary(v[k], 8);
      k := k + 1;
    }
    assert v[..k] == v;
    if lenCheck && |m.unrolled| != |bits| {
      return Ok(false);
    }
    var n := if |m.unrolled| < |bits| then |m.unrolled| else |bits|;
    var i := 0;
    while i < n
      invariant 0 <= i <= n
      invariant forall j :: 0 <= j < i ==> m.unrolled[j] == Star || m.unrolled[j] == bits[j]
    {
      if m.unrolled[i] != Star && bits[i] != m.unrolled[i] {
        return Ok(false);
      }
      i := i + 1;
    }
    return Ok(true);
  }

  /** Without the length check a value is accepted when the shorter of the
      two is a match of the other's prefix. */
  lemma PrefixMatch(pattern: Bytes, bits: Bytes)
    ensures var n := if |pattern| < |bits| then |pattern| else |bits|;
      Accepts(pattern, bits, false) <==> Accepts(pattern[..n], bits[..n], true)
  {
  }

  /** A pattern of stars accepts every value of its length. */
  lemma StarsAcceptAll(n: nat, value: Bytes)
    requires n == 8 * |value|
    ensures Accepts(Stars(n), BitString(value), true)
  {
  }

  /** Equal bit strings come from equal values. */
  lemma {:induction false} BitStringInjective(a: Bytes, b: Bytes)
    requires BitString(a) == BitString(b)
    ensures a == b
    decreases |a|
  {
    if a != [] {
      var n := |a| - 1;
      assert |b| == |a|;
      var ta := Binary(a[n], 8);
      var tb := Binary(b[n], 8);
      assert BitString(a)[8 * n..] == ta;
      assert BitString(b)[8 * n..] == tb;
      assert Pow2(8) == 256;
      BinaryRoundTrip(a[n], 8);
      BinaryRoundTrip(b[n], 8);
      assert BitString(a)[..8 * n] == BitString(a[..n]);
      assert BitString(b)[..8 * n] == BitString(b[..n]);
      BitStringInjective(a[..n], b[..n]);
      assert a == a[..n] + [a[n]] && b == b[..n] + [b[n]];
    }
  }

  /** A pattern without wildcards accepts, under the length check, exactly
      the one value whose bits it spells. */
  lemma ExactPattern(pattern: Bytes, value: Bytes, other: Bytes)
    requires Star !in pattern
    requires pattern == BitString(value)
    ensures Accepts(pattern, BitString(other), true) <==> other == value
  {
    if Accepts(pattern, BitString(other), true) {
      assert pattern == BitString(other);
      BitStringInjective(value, other);
    }
  }
}
