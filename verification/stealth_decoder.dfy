/** `NovelAiStealthDecoder`: NovelAI's "stealth" metadata, hidden in the least
    significant bit of each pixel's alpha channel.

    The bits are read column by column, top to bottom within a column, and
    gathered eight at a time into bytes, most significant bit first. The stream
    holds the 15-byte magic `stealth_pngcomp`, a signed big-endian 32-bit bit
    count, and that many bits (rounded down to whole bytes) of gzip-compressed
    JSON. */
module StealthDecoder {
  import opened Wrappers
  import opened Bytes
  import opened Json
  import opened Codecs

  /** `MAGIC`, the ASCII bytes of `stealth_pngcomp`. */
  const MAGIC: seq<byte> := [0x73, 0x74, 0x65, 0x61, 0x6C, 0x74, 0x68, 0x5F, 0x70, 0x6E, 0x67, 0x63, 0x6F, 0x6D, 0x70]

  /** The largest payload, in bytes, that `tryDecode` accepts. */
  const MAX_PAYLOAD := 50_000_000

  /** A decoded bitmap: its size and `getPixel(x, y)`, an ARGB colour as a Kotlin `Int`. */
  datatype Bitmap = Bitmap(width: nat, height: nat, getPixel: (nat, nat) -> int)

  /** `((pixel ushr 24) and 0xFF) and 1`: the lowest bit of the alpha channel. */
  function AlphaBit(pixel: int): (r: nat)
    ensures r < 2
  {
    (pixel % 0x1_0000_0000) / 0x100_0000 % 0x100 % 2
  }

  /** The fields of `LsbExtractor`: how many bits the current byte holds, the
      byte gathered so far, and the row and column of the next pixel. */
  datatype Cursor = Cursor(bits: nat, current: nat, row: nat, col: nat)

  const START := Cursor(0, 0, 0, 0)

  /** `nextBit`: outside the grid nothing changes; inside it one alpha bit is
      shifted into the current byte and the position moves one row down,
      wrapping to the top of the next column after the last row. */
  function NextBit(bmp: Bitmap, s: Cursor): (r: Cursor)
    ensures r == s <==> s.row >= bmp.height || s.col >= bmp.width
    ensures r != s ==> r.bits == s.bits + 1
  {
    if s.row >= bmp.height || s.col >= bmp.width then s
    else
      var bit := AlphaBit(bmp.getPixel(s.col, s.row));
      if s.row + 1 == bmp.height then Cursor(s.bits + 1, s.current * 2 + bit, 0, s.col + 1)
      else Cursor(s.bits + 1, s.current * 2 + bit, s.row + 1, s.col)
  }

  /** The `while (bits < 8)` loop of `nextByte`. It ends once eight bits are
      in, or when the break fires (row and column both past the grid). A step
      that changes nothing leaves the loop in the state it started the step
      in, so the loop repeats that step for ever. */
  function FillByte(bmp: Bitmap, s: Cursor): (r: Outcome<Cursor>)
    ensures r.Ok? || r == Hangs
    ensures r.Ok? ==> r.value.bits >= 8 || (r.value.row >= bmp.height && r.value.col >= bmp.width)
    decreases 8 - s.bits
  {
    if s.bits >= 8 then Ok(s)
    else
      var t := NextBit(bmp, s);
      if t.row >= bmp.height && t.col >= bmp.width then Ok(t)
      else if t == s then Hangs
      else FillByte(bmp, t)
  }

  /** `nextByte`: the low eight bits gathered, and a cursor emptied for the next byte. */
  function NextByte(bmp: Bitmap, s: Cursor): (r: Outcome<(byte, Cursor)>)
    ensures r.Ok? || r == Hangs
    ensures r.Ok? ==> r.value.1.bits == 0 && r.value.1.current == 0
  {
    var t :- FillByte(bmp, s);
    Ok((t.current % 0x100, Cursor(0, 0, t.row, t.col)))
  }

  /** `nextBytes(n)`: `n` bytes in reading order. */
  function NextBytes(bmp: Bitmap, s: Cursor, n: nat): (r: Outcome<(seq<byte>, Cursor)>)
    ensures r.Ok? || r == Hangs
    ensures r.Ok? ==> |r.value.0| == n
    decreases n
  {
    if n == 0 then Ok(([], s))
    else
      var first :- NextByte(bmp, s);
      var rest :- NextBytes(bmp, first.1, n - 1);
      Ok(([first.0] + rest.0, rest.1))
  }

  /** `readInt32BE`: four bytes, big-endian, as a signed `Int`; `null` stands
      for a short read. */
  function ReadInt32BE(bmp: Bitmap, s: Cursor): (r: Outcome<(Option<int>, Cursor)>)
    ensures r.Ok? || r == Hangs
    ensures r.Ok? ==> r.value.0.Some? && -0x8000_0000 <= r.value.0.value < 0x8000_0000
  {
    var b :- NextBytes(bmp, s, 4);
    if |b.0| != 4 then Ok((None, b.1))
    else Ok((Some(ToInt32(U32BE(b.0[0], b.0[1], b.0[2], b.0[3]))), b.1))
  }

  /** Kotlin's `Int` division by a positive divisor, which rounds toward zero. */
  function DivTrunc(a: int, d: int): (r: int)
    requires d > 0
  {
    if a >= 0 then a / d else -((-a) / d)
  }

  /** `tryDecode`: the magic, the bit count, then the payload, gunzipped and
      parsed as a JSON object. Every mismatch or library failure is `null`;
      running out of pixels while reading a byte never returns. */
  function TryDecode(c: Codecs, bmp: Bitmap): (r: Outcome<Option<Obj>>)
    ensures r.Ok? || r == Hangs
  {
    var magic :- NextBytes(bmp, START, |MAGIC|);
    if magic.0 != MAGIC then Ok(None)
    else AfterMagic(c, bmp, magic.1)
  }

  /** The rest of `tryDecode` once the magic has matched: the bit count, then
      the payload. */
  function AfterMagic(c: Codecs, bmp: Bitmap, s: Cursor): (r: Outcome<Option<Obj>>)
    ensures r.Ok? || r == Hangs
  {
    var header :- ReadInt32BE(bmp, s);
    if header.0.None? then Ok(None)
    else
      var byteLen := DivTrunc(header.0.value, 8);
      if byteLen <= 0 || byteLen > MAX_PAYLOAD then Ok(None)
      else
        var payload :- NextBytes(bmp, header.1, byteLen);
        match c.gunzipText(payload.0)
        case None => Ok(None)
        case Some(text) => Ok(ParseObject(c, text))
  }

  // ----- The alpha stream as a reference -----

  /** The `k`-th bit of the stream: the grid read column by column, each column top to bottom. */
  function StreamBit(bmp: Bitmap, k: nat): nat
    requires bmp.height > 0
  {
    AlphaBit(bmp.getPixel(k / bmp.height, k % bmp.height))
  }

  function Pow2(n: nat): (r: nat)
    ensures r > 0
  {
    if n == 0 then 1 else 2 * Pow2(n - 1)
  }

  /** The stream bits `start .. start + count - 1` read as a binary number, first bit most significant. */
  function BitsValue(bmp: Bitmap, start: nat, count: nat): (r: nat)
    requires bmp.height > 0
    ensures r < Pow2(count)
  {
    if count == 0 then 0 else BitsValue(bmp, start, count - 1) * 2 + StreamBit(bmp, start + count - 1)
  }

  /** Eight stream bits make a byte. */
  lemma ByteBound(bmp: Bitmap, k: nat)
    requires bmp.height > 0
    ensures BitsValue(bmp, k, 8) < 0x100
  {
    assert Pow2(8) == 0x100;
  }

  /** `n` bytes of the stream from bit `k` on. */
  function StreamBytes(bmp: Bitmap, k: nat, n: nat): (r: seq<byte>)
    requires bmp.height > 0
    ensures |r| == n
  {
    seq(n, i requires 0 <= i < n => ByteBound(bmp, k + 8 * i); BitsValue(bmp, k + 8 * i, 8))
  }

  /** What `tryDecode` yields, stated over the stream of a bitmap with at
      least one row: `w * h` bits are available, and asking for more hangs. */
  function DecodeStream(c: Codecs, bmp: Bitmap): Outcome<Option<Obj>>
    requires bmp.height > 0
  {
    var available := bmp.width * bmp.height;
    if available < 8 * 15 then Hangs
    else if StreamBytes(bmp, 0, 15) != MAGIC then Ok(None)
    else StreamAfterMagic(c, bmp)
  }

  /** The stream reading past the magic. */
  function StreamAfterMagic(c: Codecs, bmp: Bitmap): Outcome<Option<Obj>>
    requires bmp.height > 0
  {
    var available := bmp.width * bmp.height;
    if available < 8 * 19 then Hangs
    else
      var hdr := StreamBytes(bmp, 8 * 15, 4);
      var byteLen := DivTrunc(ToInt32(U32BE(hdr[0], hdr[1], hdr[2], hdr[3])), 8);
      if byteLen <= 0 || byteLen > MAX_PAYLOAD then Ok(None)
      else if available < 8 * (19 + byteLen) then Hangs
      else
        match c.gunzipText(StreamBytes(bmp, 8 * 19, byteLen))
        case None => Ok(None)
        case Some(text) => Ok(ParseObject(c, text))
  }

  // ----- Division facts for the column-major position -----

  lemma MulLe(a: nat, b: nat, h: nat)
    requires a <= b
    ensures a * h <= b * h
  {
  }

  lemma DivModUnique(x: nat, h: nat, q: nat, r: nat)
    requires h > 0 && r < h && x == q * h + r
    ensures x / h == q && x % h == r
  {
    var q', r' := x / h, x % h;
    assert x == q' * h + r';
    if q' < q {
      MulLe(q' + 1, q, h);
    } else if q' > q {
      MulLe(q + 1, q', h);
    }
  }

  /** Moving one bit on moves one row down, or to the top of the next column. */
  lemma StepPosition(k: nat, h: nat)
    requires h > 0
    ensures k % h + 1 == h ==> (k + 1) % h == 0 && (k + 1) / h == k / h + 1
    ensures k % h + 1 < h ==> (k + 1) % h == k % h + 1 && (k + 1) / h == k / h
  {
    var q, r := k / h, k % h;
    assert k == q * h + r;
    if r + 1 == h {
      DivModUnique(k + 1, h, q + 1, 0);
    } else {
      DivModUnique(k + 1, h, q, r + 1);
    }
  }

  /** Bit `k` lies in the grid exactly when its column does. */
  lemma ColumnInGrid(k: nat, w: nat, h: nat)
    requires h > 0
    ensures k < w * h <==> k / h < w
  {
    var q, r := k / h, k % h;
    assert k == q * h + r;
    if q < w {
      MulLe(q + 1, w, h);
    } else {
      MulLe(w, q, h);
    }
  }

  // ----- The extractor reads the stream -----

  /** The cursor after `k` bits, holding `bits` of them in `current`. */
  function At(bmp: Bitmap, k: nat, bits: nat, current: nat): Cursor
    requires bmp.height > 0
  {
    Cursor(bits, current, k % bmp.height, k / bmp.height)
  }

  /** Inside the grid, `nextBit` shifts in stream bit `k` and moves to bit `k + 1`. */
  lemma NextBitInGrid(bmp: Bitmap, k: nat, bits: nat, v: nat)
    requires bmp.height > 0 && k < bmp.width * bmp.height
    ensures NextBit(bmp, At(bmp, k, bits, v)) == At(bmp, k + 1, bits + 1, v * 2 + StreamBit(bmp, k))
  {
    ColumnInGrid(k, bmp.width, bmp.height);
    StepPosition(k, bmp.height);
  }

  /** Once every pixel has been read, `nextBit` changes nothing. */
  lemma NextBitPastGrid(bmp: Bitmap, bits: nat, v: nat)
    requires bmp.height > 0
    ensures NextBit(bmp, At(bmp, bmp.width * bmp.height, bits, v)) == At(bmp, bmp.width * bmp.height, bits, v)
  {
    DivModUnique(bmp.width * bmp.height, bmp.height, bmp.width, 0);
  }

  /** One turn of the loop of `nextByte` that moves the cursor without ending the loop. */
  lemma FillByteStep(bmp: Bitmap, s: Cursor, t: Cursor)
    requires s.bits < 8 && t == NextBit(bmp, s) && t != s
    requires t.row < bmp.height
    ensures FillByte(bmp, s) == FillByte(bmp, t)
  {
  }

  /** Gathering stream bit `k` after the `b` bits before it. */
  lemma GatherBit(bmp: Bitmap, k: nat, b: nat)
    requires bmp.height > 0 && b <= k
    ensures BitsValue(bmp, k - b, b + 1) == BitsValue(bmp, k - b, b) * 2 + StreamBit(bmp, k)
  {
  }

  /** The loop of `nextByte` started after `k` bits, `b` of them gathered:
      it completes the byte from the stream when the grid holds the missing
      bits, and hangs otherwise. */
  lemma {:induction false} FillByteReads(bmp: Bitmap, k: nat, b: nat)
    requires bmp.height > 0 && b <= 8 && b <= k <= bmp.width * bmp.height
    ensures FillByte(bmp, At(bmp, k, b, BitsValue(bmp, k - b, b))) ==
      if k + (8 - b) <= bmp.width * bmp.height then Ok(At(bmp, k + (8 - b), 8, BitsValue(bmp, k - b, 8)))
      else Hangs
    decreases 8 - b
  {
    if b < 8 {
      var v := BitsValue(bmp, k - b, b);
      if k < bmp.width * bmp.height {
        NextBitInGrid(bmp, k, b, v);
        GatherBit(bmp, k, b);
        FillByteStep(bmp, At(bmp, k, b, v), At(bmp, k + 1, b + 1, BitsValue(bmp, k - b, b + 1)));
        FillByteReads(bmp, k + 1, b + 1);
      } else {
        FillByteHangsPastGrid(bmp, b, v);
      }
    }
  }

  /** Once every pixel has been read, the loop of `nextByte` never ends. */
  lemma FillByteHangsPastGrid(bmp: Bitmap, b: nat, v: nat)
    requires bmp.height > 0 && b < 8
    ensures FillByte(bmp, At(bmp, bmp.width * bmp.height, b, v)) == Hangs
  {
    NextBitPastGrid(bmp, b, v);
    DivModUnique(bmp.width * bmp.height, bmp.height, bmp.width, 0);
  }

  /** From bit `k` on, `nextByte` yields the next stream byte when the grid holds its bits. */
  lemma NextByteReads(bmp: Bitmap, k: nat)
    requires bmp.height > 0 && k <= bmp.width * bmp.height
    ensures NextByte(bmp, At(bmp, k, 0, 0)) ==
      if k + 8 <= bmp.width * bmp.height then Ok((BitsValue(bmp, k, 8), At(bmp, k + 8, 0, 0))) else Hangs
  {
    var s := At(bmp, k, 0, 0);
    assert s == At(bmp, k, 0, BitsValue(bmp, k - 0, 0));
    FillByteReads(bmp, k, 0);
    if k + 8 <= bmp.width * bmp.height {
      var t := At(bmp, k + 8, 8, BitsValue(bmp, k, 8));
      assert FillByte(bmp, s) == Ok(t);
      ByteBound(bmp, k);
      assert t.current % 0x100 == BitsValue(bmp, k, 8);
    } else {
      assert FillByte(bmp, s) == Hangs;
    }
  }

  /** `nextBytes` is its first byte followed by the rest. */
  lemma NextBytesCons(bmp: Bitmap, s: Cursor, n: nat)
    requires n > 0
    ensures NextByte(bmp, s) == Hangs ==> NextBytes(bmp, s, n) == Hangs
    ensures NextByte(bmp, s).Ok? ==>
      var first := NextByte(bmp, s).value;
      var rest := NextBytes(bmp, first.1, n - 1);
      NextBytes(bmp, s, n) == if rest.Ok? then Ok(([first.0] + rest.value.0, rest.value.1)) else Hangs
  {
  }

  /** From bit `k` on, `nextBytes(n)` yields the next `n` bytes of the stream
      when the grid holds their bits, and hangs otherwise. */
  lemma {:induction false} NextBytesReads(bmp: Bitmap, k: nat, n: nat)
    requires bmp.height > 0 && k <= bmp.width * bmp.height
    ensures NextBytes(bmp, At(bmp, k, 0, 0), n) ==
      if k + 8 * n <= bmp.width * bmp.height then Ok((StreamBytes(bmp, k, n), At(bmp, k + 8 * n, 0, 0)))
      else Hangs
    decreases n
  {
    if n > 0 {
      NextByteReads(bmp, k);
      NextBytesCons(bmp, At(bmp, k, 0, 0), n);
      if k + 8 <= bmp.width * bmp.height {
        NextBytesReads(bmp, k + 8, n - 1);
        if k + 8 * n <= bmp.width * bmp.height {
          assert StreamBytes(bmp, k, n) == [BitsValue(bmp, k, 8)] + StreamBytes(bmp, k + 8, n - 1);
        }
      }
    }
  }

  /** The bit count that follows the magic, read from the stream. */
  function HeaderValue(bmp: Bitmap): int
    requires bmp.height > 0
  {
    var hdr := StreamBytes(bmp, 8 * 15, 4);
    ToInt32(U32BE(hdr[0], hdr[1], hdr[2], hdr[3]))
  }

  /** `readInt32BE` after the magic reads the next four stream bytes. */
  lemma HeaderReads(bmp: Bitmap)
    requires bmp.height > 0 && 8 * 15 <= bmp.width * bmp.height
    ensures ReadInt32BE(bmp, At(bmp, 8 * 15, 0, 0)) ==
      if 8 * 19 <= bmp.width * bmp.height then Ok((Some(HeaderValue(bmp)), At(bmp, 8 * 19, 0, 0))) else Hangs
  {
    NextBytesReads(bmp, 8 * 15, 4);
  }

  /** After the header, the payload stage of `tryDecode` over the stream. */
  lemma PayloadReads(c: Codecs, bmp: Bitmap, byteLen: nat)
    requires bmp.height > 0 && 8 * 19 <= bmp.width * bmp.height && 0 < byteLen
    ensures var payload := NextBytes(bmp, At(bmp, 8 * 19, 0, 0), byteLen);
      if 8 * (19 + byteLen) <= bmp.width * bmp.height then payload.Ok? && payload.value.0 == StreamBytes(bmp, 8 * 19, byteLen)
      else payload == Hangs
  {
    NextBytesReads(bmp, 8 * 19, byteLen);
  }

  /** For a bitmap with at least one row, `tryDecode` is the reading of the
      alpha stream: magic, bit count and payload, column-major and most
      significant bit first. */
  lemma TryDecodeReadsStream(c: Codecs, bmp: Bitmap)
    requires bmp.height > 0
    ensures TryDecode(c, bmp) == DecodeStream(c, bmp)
  {
    assert START == At(bmp, 0, 0, 0);
    NextBytesReads(bmp, 0, 15);
    if 8 * 15 <= bmp.width * bmp.height && StreamBytes(bmp, 0, 15) == MAGIC {
      AfterMagicReadsStream(c, bmp);
    }
  }

  /** Past the magic, `tryDecode` reads the bit count and the payload from the stream. */
  lemma AfterMagicReadsStream(c: Codecs, bmp: Bitmap)
    requires bmp.height > 0 && 8 * 15 <= bmp.width * bmp.height
    ensures AfterMagic(c, bmp, At(bmp, 8 * 15, 0, 0)) == StreamAfterMagic(c, bmp)
  {
    HeaderReads(bmp);
    if 8 * 19 <= bmp.width * bmp.height {
      var byteLen := DivTrunc(HeaderValue(bmp), 8);
      if 0 < byteLen {
        PayloadReads(c, bmp, byteLen);
      }
    }
  }

  /** The bit count is accepted exactly when it is between 8 and 400,000,007:
      a negative count, or one under a whole byte, gives no payload. */
  lemma LengthAccepted(bitLen: int)
    ensures var byteLen := DivTrunc(bitLen, 8);
      !(byteLen <= 0 || byteLen > MAX_PAYLOAD) <==> 8 <= bitLen < 8 * (MAX_PAYLOAD + 1)
  {
  }

  function Zeros(n: nat): (r: seq<byte>)
    ensures |r| == n && forall i :: 0 <= i < n ==> r[i] == 0
  {
    if n == 0 then [] else [0] + Zeros(n - 1)
  }

  /** A bitmap with neither rows nor columns: the break fires at once, so every byte reads as 0. */
  lemma {:induction false} EmptyBitmapReadsZeros(bmp: Bitmap, n: nat)
    requires bmp.width == 0 && bmp.height == 0
    ensures NextBytes(bmp, START, n) == Ok((Zeros(n), START))
    decreases n
  {
    if n > 0 {
      EmptyBitmapReadsZeros(bmp, n - 1);
      assert NextByte(bmp, START) == Ok((0, START));
      NextBytesCons(bmp, START, n);
    }
  }

  /** So an empty bitmap never carries the magic. */
  lemma EmptyBitmapHasNothing(c: Codecs, bmp: Bitmap)
    requires bmp.width == 0 && bmp.height == 0
    ensures TryDecode(c, bmp) == Ok(None)
  {
    EmptyBitmapReadsZeros(bmp, 15);
    assert Zeros(15)[0] != MAGIC[0];
  }

  /** Columns without rows: the position never moves and the break never fires. */
  lemma ZeroHeightHangs(c: Codecs, bmp: Bitmap)
    requires bmp.width > 0 && bmp.height == 0
    ensures TryDecode(c, bmp) == Hangs
  {
    assert FillByte(bmp, START) == Hangs;
  }
}
