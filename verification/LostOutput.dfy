/** An error met while the caller's output space is used up: what was decoded before it is lost. */
module LostOutput {
  import opened Bits
  import opened Deflate
  import opened DeflateRun
  import opened InfUtil
  import opened InfState
  import opened InfBlock
  import opened Inflate

  /** A stored block with one byte, then a block type there is not. */
  const CORRUPT: seq<byte> := [0, 1, 0, 254, 255, 65, 6]

  lemma TwoBytes(input: seq<byte>, i: nat)
    requires i + 1 < |input|
    ensures var lo: nat, hi: nat := input[i], input[i + 1];
            Peek(Stream(input), 8 * i, 16) == lo + 256 * hi
  {
    hide Stream, Low, Shr, Shl;
    var x := Shr(Stream(input), 8 * i);
    StreamByte(input, i);
    StreamByte(input, i + 1);
    ShrShr(Stream(input), 8 * i, 8);
    LowSplit(x, 8, 8);
    Shl8(input[i + 1]);
  }

  lemma Peeks()
    ensures var S := Stream(CORRUPT);
            && Peek(S, 0, 3) == 0 && Peek(S, 40, 8) == 65 && Peek(S, 48, 3) == 6
            && Low(Peek(S, 8, 32), 16) == 1 && Shr(Peek(S, 8, 32), 16) == 0xfffe
  {
    hide Stream, Shr, Shl;
    var S := Stream(CORRUPT);
    StreamByte(CORRUPT, 0);
    StreamByte(CORRUPT, 5);
    StreamByte(CORRUPT, 6);
    LowLow(Shr(S, 0), 3, 8);
    LowLow(Shr(S, 48), 3, 8);
    assert Low(0, 3) == 0 && Low(6, 3) == 6;
    hide Low;
    TwoBytes(CORRUPT, 1);
    TwoBytes(CORRUPT, 3);
    ShrShr(S, 8, 16);
    LowSplit(Shr(S, 8), 16, 16);
    LowLow(Shr(S, 8), 16, 32);
  }

  /** The states on the way from the start `a`. */
  function At(W: nat, a: State, n: nat): State {
    if n == 0 then a
    else if n == 1 then a.(pos := 8, block := Lens)
    else if n == 2 then a.(pos := 40, block := Stored(1))
    else if n == 3 then a.(pos := 48, block := Type, hist := a.hist + [65])
    else a.(pos := 51, block := Bad, hist := a.hist + [65])
  }

  lemma Way(W: nat, a: State, n: nat)
    requires Good(W, a) && a.pos == 0 && a.block == Type && !a.last
    ensures Good(W, At(W, a, n))
    ensures Enabled(Stream(CORRUPT), W, 7, At(W, a, n)) <==> n < 4
    ensures n < 4 ==> Next(Stream(CORRUPT), W, At(W, a, n)) == At(W, a, n + 1)
  {
    hide Peek, Stream, Next, Need, Good, Low, Shr;
    var S := Stream(CORRUPT);
    Peeks();
    TypeIs(S, W, a);
    LensIs(S, W, At(W, a, 1));
    StoredIs(S, W, 7, At(W, a, 2), 65);
    TypeIs(S, W, At(W, a, 3));
  }

  lemma {:induction false} RunIs(W: nat, a: State, k: nat, n: nat)
    requires Good(W, a) && a.pos == 0 && a.block == Type && !a.last && k <= 4
    ensures Good(W, At(W, a, k)) && Run(Stream(CORRUPT), W, 7, At(W, a, k), n) == At(W, a, if k + n <= 4 then k + n else 4)
    decreases n
  {
    hide Stream, Next, Enabled, Good, At;
    Way(W, a, k);
    if n > 0 && k < 4 { RunIs(W, a, k + 1, n - 1); }
  }

  /** All there is of the output, and the only state without further steps. */
  lemma CorruptOutput(W: nat, a: State)
    requires Good(W, a) && a.pos == 0 && a.block == Type && !a.last && |a.hist| == W
    ensures Output(Stream(CORRUPT), W, 7, a) == [65]
  {
    hide Stream, Next, Good, Enabled;
    ReachesFinish(Stream(CORRUPT), W, 7, a);
    var n: nat :| Run(Stream(CORRUPT), W, 7, a, n) == Finish(Stream(CORRUPT), W, 7, a);
    RunIs(W, a, 0, n);
    Way(W, a, if n <= 4 then n else 4);
    assert (a.hist + [65])[W..] == [65];
  }

  /** Wherever the machine is on the way, it can go on, or has met the error. */
  lemma OnWay(W: nat, a: State, b: State)
    requires Good(W, a) && a.pos == 0 && a.block == Type && !a.last
    requires Reaches(Stream(CORRUPT), W, 7, a, b)
    ensures !Starved(Stream(CORRUPT), W, 7, b) && |b.hist| <= |a.hist| + 1
    ensures !b.block.Dry? && !b.block.InCodes? && !b.block.Done?
  {
    hide Stream, Next, Good, Enabled;
    var n: nat :| Run(Stream(CORRUPT), W, 7, a, n) == b;
    RunIs(W, a, 0, n);
    Way(W, a, if n <= 4 then n else 4);
  }

  /** Decode with no room for output at all: the error is reported at once, and the byte before it
    * is never delivered. */
  method Lose(z: Inflate) returns (r: Status)
    requires z.Ready() && z.mode == Blocks && z.blocks.input == CORRUPT && z.blocks.Limit() == 0 && z.blocks.W > 2
    requires z.blocks.delivered == []
    requires z.start.pos == 0 && z.start.block == Type && !z.start.last && |z.start.hist| == z.blocks.W
    modifies z`mode, z`full, z.blocks`nextIn, z.blocks`availIn, z.blocks`availOut, z.blocks`bitb, z.blocks`bitk,
             z.blocks`returned, z.blocks`abs, z.blocks`read, z.blocks`write, z.blocks`delivered, z.blocks`last,
             z.blocks`mode, z.blocks`hl, z.blocks`hd, z.blocks.window, z.blocks.hufts, z.blocks.work, z.blocks.blens
    ensures z.Ready() && r == Corrupt && z.mode == Failed && z.blocks.delivered == []
    ensures Good(z.blocks.W, z.start) && Output(z.blocks.S(), z.blocks.W, z.blocks.Limit(), z.start) == [65]
  {
    hide Good, Reaches, Buffer, Ring, Delivered, ModeMatch, Stream, Valid, Output, Starved;
    Supply(z, Call(7, 0));
    r := Decode(z);
    CorruptOutput(z.blocks.W, z.start);
    OnWay(z.blocks.W, z.start, z.blocks.abs);
  }
}
