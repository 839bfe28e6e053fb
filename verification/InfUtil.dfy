/** The decoder's working state, its bit buffer and its window, and the operations on them. */
module InfUtil {
  import opened Bits
  import opened Canonical
  import opened HuftTables
  import opened HuftBuild
  import opened InflateTrees
  import opened Deflate
  import opened DeflateRun

  /** Modes of symbol decoding, with what each has to remember. */
  datatype CodesMode =
    | AtStart
    | AtLen(need: nat, tree: nat)
    | AtLenExt(len: nat, get: nat)
    | AtDist(dlen: nat, need: nat, tree: nat)
    | AtDistExt(len: nat, dist: nat, get: nat)
    | AtCopy(len: nat, dist: nat)
    | AtLit(lit: byte)
    | AtWash
    | AtEnd
    | AtBadCode

  /** Modes of block decoding. */
  datatype BlockMode =
    | InType
    | InLens
    | InStored(left: nat)
    | InTable
    | InBTree(table: nat, index: nat)
    | InDTree(table: nat, index: nat, bb: nat, tb: nat)
    | InHuffman(lbits: nat, dbits: nat, ltree: nat, dtree: nat, codes: CodesMode)
    | InDry
    | InDone
    | InBad

  // ----- The input as one number

  /** A sequence of bytes as a stream of bits, low bit of the first byte first. */
  function Stream(input: seq<byte>): nat {
    if |input| == 0 then 0 else input[0] + 256 * Stream(input[1..])
  }

  lemma Shl8(x: int)
    ensures Shl(x, 8) == 256 * x
  {
    assert Shl(x, 1) == 2 * x;
    assert Shl(x, 2) == 4 * x;
    assert Shl(x, 3) == 8 * x;
    assert Shl(x, 4) == 16 * x;
    assert Shl(x, 5) == 32 * x;
    assert Shl(x, 6) == 64 * x;
    assert Shl(x, 7) == 128 * x;
  }

  lemma {:induction false} StreamByte(input: seq<byte>, i: nat)
    requires i < |input|
    ensures Low(Shr(Stream(input), 8 * i), 8) == input[i]
  {
    var rest := Stream(input[1..]);
    assert Pow2(8) == 256;
    Shl8(rest);
    Unsplit(input[0], rest, 8);
    if i > 0 {
      ShrShr(Stream(input), 8, 8 * (i - 1));
      StreamByte(input[1..], i - 1);
    }
  }

  // ----- The bit buffer

  /** `b` holds the `k` bits before byte `p`; above them it is zero or repeats the next `g`
    * bytes, which were handed back to the input.  All fits into 32 bits. */
  ghost predicate Buffer(S: nat, p: nat, k: nat, b: nat, g: nat) {
    k <= 8 * p && k + 8 * g <= 32 && b == Low(Shr(S, 8 * p - k), k + 8 * g)
  }

  /** The buffer and a byte shifted to its place are 32-bit numbers, so nothing is cut off above. */
  lemma BufferFits(S: nat, p: nat, k: nat, b: nat, g: nat, v: byte)
    requires Buffer(S, p, k, b, g)
    ensures b < Pow2(32) && (k <= 24 ==> Shl(v, k) < Pow2(32))
  {
    hide Shl, Low, Shr;
    LowBound(Shr(S, 8 * p - k), k + 8 * g);
    Pow2Mono(k + 8 * g, 32);
    if k <= 24 {
      assert Pow2(8) == 256 by { SmallByte(); }
      ShlMono(v, 256, k);
      Pow2Add(8, k);
      Pow2Mono(8 + k, 32);
    }
  }

  /** OR-ing in the next byte at bit `k` is right even over bytes handed back before. */
  lemma BufferLoad(S: nat, p: nat, k: nat, b: nat, g: nat, v: nat)
    requires Buffer(S, p, k, b, g) && v == Low(Shr(S, 8 * p), 8)
    requires k <= 24
    ensures 0 <= Shl(v, k) < Pow2(32) && BitOr(b, Shl(v, k)) < Pow2(32)
    ensures Buffer(S, p + 1, k + 8, BitOr(b, Shl(v, k)), if g > 0 then g - 1 else 0)
  {
    hide Shl, Low, Shr, BitOr;
    var Y := Shr(S, 8 * p - k);
    ShrShr(S, 8 * p - k, k);
    LowSplit(Y, k, 8 * g);
    BitOrShl(b, v, k);
    LowLow(Y, k, k + 8 * g);
    if g > 0 {
      LowLow(Shr(Y, k), 8, 8 * g);
      BitOrLow(Shr(b, k), 8);
      LowSplit(b, k, 8 * g);
      Split(b, k);
    } else {
      LowNone(Shr(Y, k));
      BitOrZero(v);
      LowSplit(Y, k, 8);
    }
    LowBound(Shr(S, 8 * p), 8);
    assert Pow2(8) == 256 by { SmallByte(); }
    BufferFits(S, p, k, b, g, v);
    BufferFits(S, p + 1, k + 8, BitOr(b, Shl(v, k)), if g > 0 then g - 1 else 0, 0);
  }

  lemma LowNone(x: nat)
    ensures Low(x, 0) == 0
  {
  }

  lemma BufferDump(S: nat, p: nat, k: nat, b: nat, g: nat, j: nat)
    requires Buffer(S, p, k, b, g) && j <= k
    ensures Buffer(S, p, k - j, Shr(b, j), g)
  {
    hide Shl, Low, Shr;
    LowSplit(Shr(S, 8 * p - k), j, k - j + 8 * g);
    ShrShr(S, 8 * p - k, j);
  }

  /** The low bits of the buffer are the next bits of the stream. */
  lemma BufferPeek(S: nat, p: nat, k: nat, b: nat, g: nat, j: nat)
    requires Buffer(S, p, k, b, g) && j <= k
    ensures Low(b, j) == Peek(S, 8 * p - k, j)
  {
    hide Shl, Low, Shr;
    LowLow(Shr(S, 8 * p - k), j, k + 8 * g);
  }

  /** Handing whole bytes back to the input leaves the buffer as it is. */
  lemma BufferReturn(S: nat, p: nat, k: nat, b: nat, g: nat, c: nat)
    requires Buffer(S, p, k, b, g) && 8 * c <= k
    ensures Buffer(S, p - c, k - 8 * c, b, g + c)
  {
  }

  // ----- The window

  /** The bytes written but not yet delivered. */
  function Pending(W: nat, read: nat, write: nat): nat
    requires read <= W && write <= W
  {
    if read <= write then write - read else W - read + write
  }

  /** The window holds the end of the history, around the write position. */
  ghost predicate Ring(win: seq<byte>, write: nat, hist: seq<byte>) {
    && write <= |win| <= |hist|
    && forall j :: 0 <= j < |win| ==>
         win[j] == hist[|hist| - write + j - (if j < write then 0 else |win|)]
  }

  /** What was delivered and what is pending make up the decoded history. */
  ghost predicate Delivered(W: nat, hist: seq<byte>, pending: nat, delivered: seq<byte>) {
    W + pending <= |hist| && delivered == hist[W..|hist| - pending]
  }

  lemma RingWrap(win: seq<byte>, hist: seq<byte>)
    requires Ring(win, |win|, hist)
    ensures Ring(win, 0, hist)
  {
  }

  lemma RingWrite(win: seq<byte>, write: nat, hist: seq<byte>, c: byte)
    requires Ring(win, write, hist) && write < |win|
    ensures Ring(win[write := c], write + 1, hist + [c])
  {
  }

  /** The byte `dist` back in the history is at `write - dist`, modulo the window size. */
  lemma RingBack(win: seq<byte>, write: nat, hist: seq<byte>, dist: nat, f: nat)
    requires Ring(win, write, hist) && 0 < |win| && 0 < dist
    requires f < |win| && (f == write - BackDistance(|win|, dist) || f == write - BackDistance(|win|, dist) + |win|)
    ensures win[f] == hist[|hist| - BackDistance(|win|, dist)]
  {
  }

  lemma RingSize(win: seq<byte>, write: nat, hist: seq<byte>)
    requires Ring(win, write, hist)
    ensures write <= |win| <= |hist|
  {
  }

  lemma Append(hist: seq<byte>, a: nat, b: nat, c: nat)
    requires a <= b <= c <= |hist|
    ensures hist[a..b] + hist[b..c] == hist[a..c]
  {
  }

  lemma RingPart(win: seq<byte>, write: nat, hist: seq<byte>, from: nat, to: nat, at: nat)
    requires Ring(win, write, hist) && from <= to <= |win|
    requires to <= write ==> at == |hist| - write + from
    requires to > write ==> write <= from && at == |hist| - write + from - |win|
    ensures at + to - from <= |hist|
    ensures win[from..to] == hist[at..at + to - from]
  {
  }

  /** The inflater: stream pointers, bit buffer, window, and the blocks and codes state. */
  class Inflater {
    const W: nat
    const input: seq<byte>
    const window: array<byte>
    const hufts: array<Huft>
    const work: array<nat>
    const blens: array<nat>

    var nextIn: nat
    var availIn: nat
    var availOut: nat
    var bitb: nat
    var bitk: nat
    var read: nat
    var write: nat
    var last: bool
    var mode: BlockMode

    /** Everything put into the caller's output space so far. */
    var delivered: seq<byte>

    /** The state of the DEFLATE machine that this decoder state stands for. */
    ghost var abs: State
    /** Bytes handed back to the input that are still in the bit buffer. */
    ghost var returned: nat
    /** The end of the literal and distance tables. */
    ghost var hl: nat
    ghost var hd: nat

    /** Start at a block's type, with an empty bit buffer and nothing in the window to deliver. */
    constructor (input: seq<byte>, W: nat, window: array<byte>, hufts: array<Huft>, work: array<nat>, blens: array<nat>)
      ensures this.input == input && this.W == W && this.window == window && this.hufts == hufts
      ensures this.work == work && this.blens == blens
      ensures nextIn == availIn == availOut == bitb == bitk == read == write == returned == 0
      ensures !last && mode == InType && delivered == []
      ensures abs == State(0, window[..], false, Type, blens[..])
    {
      this.input, this.W, this.window, this.hufts, this.work, this.blens := input, W, window, hufts, work, blens;
      nextIn, availIn, availOut, bitb, bitk, read, write := 0, 0, 0, 0, 0, 0, 0;
      last, mode, delivered := false, InType, [];
      abs, returned := State(0, window[..], false, Type, blens[..]), 0;
    }

    ghost function S(): nat { Stream(input) }

    /** The number of input bytes there are so far. */
    function Limit(): nat
      reads this
    {
      nextIn + availIn
    }

    /** The stream position of the first bit in the buffer. */
    function At(): int
      reads this
    {
      8 * nextIn - bitk
    }

    ghost predicate InputOK()
      reads this
    {
      && Limit() <= |input|
      && Buffer(S(), nextIn, bitk, bitb, returned)
    }

    ghost predicate WindowOK()
      reads this, window
    {
      && window.Length == W >= 2
      && read < W && write <= W
      && Ring(window[..], write, abs.hist)
      && Delivered(W, abs.hist, Pending(W, read, write), delivered)
    }

    ghost predicate SpaceOK()
      reads this, blens
    {
      && hufts.Length == MANY
      && work.Length >= 288
      && blens.Length == BLENS_SIZE
      && blens != work
      && abs.blens == blens[..]
    }
  }

  // ----- Output

  /** Bytes that can be written before the end of the window or the read position. */
  function Wavail(s: Inflater): int
    reads s
  {
    if s.write < s.read then s.read - s.write - 1 else s.W - s.write
  }

  /** Copy `n` bytes of the window, from `q` on, to the output area; `from` is their place in
    * the history. */
  method CopyOut(s: Inflater, q: nat, n: nat, ghost from: nat)
    requires s.window.Length == s.W && q + n <= s.W && n <= s.availOut
    requires Ring(s.window[..], s.write, s.abs.hist)
    requires q + n <= s.write ==> from == |s.abs.hist| - s.write + q
    requires q + n > s.write ==> s.write <= q && from == |s.abs.hist| - s.write + q - s.W
    requires s.W <= from && s.delivered == s.abs.hist[s.W..from]
    modifies s`availOut, s`delivered
    ensures s.availOut == old(s.availOut) - n
    ensures from + n <= |s.abs.hist| && s.delivered == s.abs.hist[s.W..from + n]
  {
    hide Ring;
    RingPart(s.window[..], s.write, s.abs.hist, q, q + n, from);
    assert s.window[q..q + n] == s.window[..][q..q + n];
    Append(s.abs.hist, s.W, from, from + n);
    s.availOut := s.availOut - n;
    s.delivered := s.delivered + s.window[q..q + n];
  }

  /** Deliver pending bytes, as far as the output space goes. */
  method Flush(s: Inflater)
    requires s.WindowOK()
    modifies s`read, s`write, s`availOut, s`delivered
    ensures s.WindowOK()
    ensures var n := Pending(s.W, old(s.read), old(s.write));
            var m := if old(s.availOut) < n then old(s.availOut) else n;
            && s.availOut == old(s.availOut) - m
            && Pending(s.W, s.read, s.write) == n - m
            && |s.delivered| == |old(s.delivered)| + m
            && old(s.delivered) <= s.delivered
    ensures s.write == old(s.write) || (old(s.write) == s.W && s.write == 0)
  {
    hide Ring, Delivered;
    RingSize(s.window[..], s.write, s.abs.hist);
    ghost var was, pending := s.delivered, Pending(s.W, s.read, s.write);
    DeliveredIs(s.W, s.abs.hist, pending, was);
    ghost var from := |s.abs.hist| - pending;
    var q := s.read;

    // what is pending without wrapping around
    var n := (if q <= s.write then s.write else s.W) - q;
    if n > s.availOut { n := s.availOut; }
    CopyOut(s, q, n, from);
    q := q + n;

    // pending bytes may go on at index 0
    ghost var left := pending - n;
    if q == s.W {
      q := CopyFromStart(s);
      left := s.write - q;
    }
    s.read := q;
    assert left == Pending(s.W, s.read, s.write);
    MoreDelivered(s.W, s.abs.hist, pending, was, left, s.delivered);
  }

  lemma DeliveredIs(W: nat, hist: seq<byte>, pending: nat, delivered: seq<byte>)
    requires Delivered(W, hist, pending, delivered)
    ensures W + pending <= |hist| && delivered == hist[W..|hist| - pending]
  {
  }

  lemma MoreDelivered(W: nat, hist: seq<byte>, n: nat, was: seq<byte>, pending: nat, delivered: seq<byte>)
    requires Delivered(W, hist, n, was) && pending <= n && delivered == hist[W..|hist| - pending]
    ensures Delivered(W, hist, pending, delivered) && |delivered| == |was| + n - pending && was <= delivered
  {
  }

  /** Both indices wrap around, and what is pending there is delivered. */
  method CopyFromStart(s: Inflater) returns (q: nat)
    requires s.window.Length == s.W >= 2 && s.write <= s.W
    requires Ring(s.window[..], s.write, s.abs.hist)
    requires var n := if s.write == s.W then 0 else s.write;
             s.W + n <= |s.abs.hist| && s.delivered == s.abs.hist[s.W..|s.abs.hist| - n]
    modifies s`write, s`availOut, s`delivered
    ensures Ring(s.window[..], s.write, s.abs.hist) && q <= s.write < s.W
    ensures var n := if old(s.write) == s.W then 0 else old(s.write);
            && s.write == n
            && q == (if old(s.availOut) < n then old(s.availOut) else n)
            && s.availOut == old(s.availOut) - q
            && s.delivered == s.abs.hist[s.W..|s.abs.hist| - n + q]
            && s.W <= |s.abs.hist| - n
  {
    hide Ring;
    q := 0;
    if s.write == s.W {
      RingWrap(s.window[..], s.abs.hist);
      s.write := 0;
    }
    var n := s.write - q;
    if n > s.availOut { n := s.availOut; }
    CopyOut(s, q, n, |s.abs.hist| - s.write);
    q := q + n;
  }

  /** Go on at the start of the window, if there is room. */
  method Wrap(s: Inflater)
    requires s.WindowOK()
    modifies s`write
    ensures s.WindowOK() && Pending(s.W, s.read, s.write) == Pending(s.W, s.read, old(s.write))
    ensures s.write == s.W ==> s.read == 0
    ensures s.write == old(s.write) || (old(s.write) == s.W && s.write == 0)
  {
    if s.write == s.W && s.read != 0 {
      RingWrap(s.window[..], s.abs.hist);
      s.write := 0;
    }
  }

  /** Make room for at least one byte; fails only if output space and window are both full. */
  method NeedOut(s: Inflater) returns (ok: bool)
    requires s.WindowOK()
    modifies s`read, s`write, s`availOut, s`delivered
    ensures s.WindowOK()
    ensures ok ==> Wavail(s) > 0
    ensures !ok ==> s.availOut == 0 && Pending(s.W, s.read, s.write) >= s.W - 1
    ensures old(s.delivered) <= s.delivered
    ensures s.availOut + |s.delivered| == old(s.availOut + |s.delivered|)
    ensures s.write == old(s.write) || (old(s.write) == s.W && s.write == 0)
  {
    if Wavail(s) == 0 {
      Wrap(s);
      if Wavail(s) == 0 {
        Flush(s);
        Wrap(s);
        if Wavail(s) == 0 {
          return false;
        }
      }
    }
    ok := true;
  }

  /** Write one byte to the window; `next` is the machine's state afterwards. */
  method OutByte(s: Inflater, c: byte, ghost next: State)
    requires s.WindowOK() && Wavail(s) > 0
    requires next.hist == s.abs.hist + [c]
    modifies s`write, s`abs, s.window
    ensures s.WindowOK() && s.abs == next && s.write == old(s.write) + 1
    ensures s.window[..] == old(s.window[..])[old(s.write) := c]
  {
    RingWrite(s.window[..], s.write, s.abs.hist, c);
    s.window[s.write] := c;
    s.write := s.write + 1;
    s.abs := next;
  }

  // ----- Input

  /** Load bytes until the buffer has `j` bits; fails only if the input is used up. */
  method NeedBits(s: Inflater, j: nat) returns (ok: bool)
    requires s.InputOK() && (j <= 25 || (j == 32 && s.bitk % 8 == 0))
    modifies s`nextIn, s`availIn, s`bitb, s`bitk, s`returned
    ensures s.InputOK() && s.Limit() == old(s.Limit()) && s.At() == old(s.At())
    ensures ok <==> s.bitk >= j
    ensures !ok ==> s.availIn == 0
    ensures s.bitk == old(s.bitk) || s.bitk < j + 8
    ensures s.bitk >= old(s.bitk) && (j == 32 ==> s.bitk % 8 == 0 && s.bitk <= 32)
  {
    hide Buffer, Shl, Low, Shr, BitOr, Stream;
    while s.bitk < j
      invariant s.InputOK() && s.Limit() == old(s.Limit()) && s.At() == old(s.At())
      invariant s.bitk >= old(s.bitk)
      invariant s.bitk == old(s.bitk) || s.bitk < j + 8
      invariant j <= 25 || (j == 32 && s.bitk % 8 == 0)
      decreases s.availIn
    {
      if s.availIn == 0 {
        BufferBound(s.S(), s.nextIn, s.bitk, s.bitb, s.returned);
        return false;
      }
      StreamByte(s.input, s.nextIn);
      BufferLoad(s.S(), s.nextIn, s.bitk, s.bitb, s.returned, s.input[s.nextIn]);
      s.bitb := BitOr(s.bitb, Shl(s.input[s.nextIn], s.bitk));
      s.availIn, s.nextIn := s.availIn - 1, s.nextIn + 1;
      s.bitk := s.bitk + 8;
      s.returned := if s.returned > 0 then s.returned - 1 else 0;
    }
    BufferBound(s.S(), s.nextIn, s.bitk, s.bitb, s.returned);
    ok := true;
  }

  lemma BufferBound(S: nat, p: nat, k: nat, b: nat, g: nat)
    requires Buffer(S, p, k, b, g)
    ensures k <= 8 * p && k <= 32
  {
  }

  /** Drop `j` bits. */
  method DumpBits(s: Inflater, j: nat)
    requires s.InputOK() && j <= s.bitk
    modifies s`bitb, s`bitk
    ensures s.InputOK() && s.bitk == old(s.bitk) - j && s.At() == old(s.At()) + j
  {
    hide Buffer, Shl, Low, Shr, BitOr, Stream;
    BufferDump(s.S(), s.nextIn, s.bitk, s.bitb, s.returned, j);
    s.bitb := Shr(s.bitb, j);
    s.bitk := s.bitk - j;
  }

  /** The low `j` bits of the buffer. */
  method PeekBits(s: Inflater, j: nat) returns (v: nat)
    requires s.InputOK() && j <= s.bitk
    ensures s.At() >= 0 && v == Peek(s.S(), s.At(), j)
  {
    hide Buffer, Shl, Low, Shr, BitOr, Stream, Peek;
    BufferBound(s.S(), s.nextIn, s.bitk, s.bitb, s.returned);
    BufferPeek(s.S(), s.nextIn, s.bitk, s.bitb, s.returned, j);
    v := Low(s.bitb, j);
  }

  /** Hand `c` bytes back to the input. */
  method ReturnBytes(s: Inflater, c: nat)
    requires s.InputOK() && 8 * c <= s.bitk
    modifies s`nextIn, s`availIn, s`bitk, s`returned
    ensures s.InputOK() && s.Limit() == old(s.Limit()) && s.At() == old(s.At())
    ensures s.bitk == old(s.bitk) - 8 * c
  {
    hide Shl, Low, Shr, BitOr, Stream;
    BufferReturn(s.S(), s.nextIn, s.bitk, s.bitb, s.returned, c);
    s.bitk := s.bitk - 8 * c;
    s.availIn := s.availIn + c;
    s.nextIn := s.nextIn - c;
    s.returned := s.returned + c;
  }
}
