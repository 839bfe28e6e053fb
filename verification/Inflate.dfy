/** The decoder as its caller sees it: calls with some more input and some more output space.
  *
  * However the calls cut input and output up, together they deliver what the DEFLATE machine
  * makes of the input.
  */
module Inflate {
  import opened Bits
  import opened HuftTables
  import opened HuftBuild
  import opened InflateTrees
  import opened Deflate
  import opened DeflateRun
  import opened InfUtil
  import opened InfState
  import opened InfCodes
  import opened InfBlock
  import opened InfBlocks

  // ----- What a stream decodes to

  /** Where the machine stops when it has the first `limit` bytes of input. */
  function Finish(S: nat, W: nat, limit: nat, a: State): (b: State)
    requires Good(W, a)
    ensures Good(W, b) && !Enabled(S, W, limit, b)
    decreases 8 * limit - a.pos, Phase(a), Remainder(a)
  {
    if Enabled(S, W, limit, a) then
      NextGood(S, W, a);
      NextProgress(S, W, a);
      Finish(S, W, limit, Next(S, W, a))
    else a
  }

  lemma {:induction false} ReachesFinish(S: nat, W: nat, limit: nat, a: State)
    requires Good(W, a)
    ensures Reaches(S, W, limit, a, Finish(S, W, limit, a))
    decreases 8 * limit - a.pos, Phase(a), Remainder(a)
  {
    hide Good, Next, Need, Terminal, Reaches, Phase, Remainder;
    ReachesRefl(S, W, limit, a);
    if Enabled(S, W, limit, a) {
      ReachesNext(S, W, limit, a, a);
      NextGood(S, W, a);
      NextProgress(S, W, a);
      ReachesFinish(S, W, limit, Next(S, W, a));
      ReachesTrans(S, W, limit, a, Next(S, W, a), Finish(S, W, limit, a));
    }
  }

  /** The bytes decoded from the first `limit` bytes of input. */
  function Output(S: nat, W: nat, limit: nat, a: State): seq<byte>
    requires Good(W, a)
  {
    var b := Finish(S, W, limit, a);
    b.hist[W..]
  }

  /** What a state on the way has in its history is part of the output; a state in which the
    * machine stops has all of it. */
  lemma OnTheWay(S: nat, W: nat, limit: nat, a: State, b: State)
    requires Good(W, a) && Reaches(S, W, limit, a, b)
    ensures Good(W, b) && b.hist <= Finish(S, W, limit, a).hist
    ensures !Enabled(S, W, limit, b) ==> b == Finish(S, W, limit, a)
  {
    hide Good, Next, Need, Terminal, Reaches, Phase, Remainder, Enabled;
    var c := Finish(S, W, limit, a);
    ReachesFinish(S, W, limit, a);
    ReachedComparable(S, W, limit, a, b, c);
    if !Enabled(S, W, limit, b) {
      StuckUnique(S, W, limit, a, b, c);
    }
    if !(b.hist <= c.hist) {
      if Reaches(S, W, limit, c, b) {
        StuckStays(S, W, limit, c, b);
      } else {
        ReachesHist(S, W, limit, b, c);
      }
    }
  }

  lemma StuckStays(S: nat, W: nat, limit: nat, a: State, b: State)
    requires Good(W, a) && Reaches(S, W, limit, a, b) && !Enabled(S, W, limit, a)
    ensures a == b
  {
    hide Good, Next, Enabled;
    var n: nat :| Run(S, W, limit, a, n) == b;
    RunStuck(S, W, limit, a, n);
  }

  lemma ReachesHist(S: nat, W: nat, limit: nat, a: State, b: State)
    requires Good(W, a) && Reaches(S, W, limit, a, b)
    ensures a.hist <= b.hist
  {
    hide Good, Next, Enabled;
    var n: nat :| Run(S, W, limit, a, n) == b;
    RunHist(S, W, limit, a, n);
  }

  /** More input only ever adds to the output. */
  lemma OutputGrows(S: nat, W: nat, limit: nat, limit': nat, a: State)
    requires Good(W, a) && limit <= limit'
    ensures Output(S, W, limit, a) <= Output(S, W, limit', a)
  {
    hide Good, Next, Need, Terminal, Reaches, Phase, Remainder, Enabled, Finish;
    ReachesFinish(S, W, limit, a);
    ReachesMoreInput(S, W, limit, limit', a, Finish(S, W, limit, a));
    OnTheWay(S, W, limit', a, Finish(S, W, limit, a));
    GoodSize(W, Finish(S, W, limit, a));
  }

  lemma GoodSize(W: nat, a: State)
    requires Good(W, a)
    ensures 0 < W <= |a.hist|
  {
    hide GoodCodes, GoodBits;
  }

  // ----- The caller's side

  /** What a call leaves behind: the state `b` reached, and the bytes delivered so far.  It is `full`
    * if it stopped with no output space left. */
  ghost predicate Outcome(S: nat, W: nat, limit: nat, start: State, r: Status, full: bool, b: State, delivered: seq<byte>)
    requires Good(W, start)
  {
    && Reaches(S, W, limit, start, b)
    && W <= |b.hist| && delivered <= b.hist[W..]
    && (!full || r == StreamEnd ==> delivered == b.hist[W..])
    && match r
       case Waiting => full || (Good(W, b) && !Terminal(b) && !Enabled(S, W, limit, b))
       case StreamEnd => b.block.Done?
       case Corrupt => Terminal(b) && !b.block.Done?
  }

  /** Every call's output is part of the output of all input so far; unless the output space is
    * used up, it is all of it. */
  lemma OutcomeIsOutput(S: nat, W: nat, limit: nat, start: State, r: Status, full: bool, b: State, delivered: seq<byte>)
    requires Good(W, start) && Outcome(S, W, limit, start, r, full, b, delivered)
    ensures delivered <= Output(S, W, limit, start)
    ensures !full || r == StreamEnd ==> delivered == Output(S, W, limit, start)
    ensures !full || r != Waiting ==>
              && b == Finish(S, W, limit, start)
              && r == if b.block.Done? then StreamEnd else if Terminal(b) then Corrupt else Waiting
  {
    hide Good, Next, Need, Reaches, Phase, Remainder, Finish;
    OnTheWay(S, W, limit, start, b);
  }

  function Least(x: nat, y: nat): nat {
    if x <= y then x else y
  }

  /** A call with room for `room` more bytes after `was` delivers as much of the output as fits. */
  lemma OutcomeIsFilled(S: nat, W: nat, limit: nat, start: State, r: Status, full: bool, b: State, delivered: seq<byte>,
                        was: nat, room: nat)
    requires Good(W, start) && Outcome(S, W, limit, start, r, full, b, delivered)
    requires |delivered| <= was + room && (full ==> |delivered| == was + room)
    ensures var all := Output(S, W, limit, start); delivered == all[..Least(was + room, |all|)]
  {
    hide Good, Outcome, Output, Finish;
    OutcomeIsOutput(S, W, limit, start, r, full, b, delivered);
  }

  /** Two ways of cutting the same input and the output space into calls: the bytes delivered
    * agree, and once neither lacks output space they are the same, with the same verdict and
    * the same stream position. */
  lemma ChunkingIrrelevant(S: nat, W: nat, limit: nat, start: State,
                           r: Status, full: bool, b: State, delivered: seq<byte>,
                           r': Status, full': bool, b': State, delivered': seq<byte>)
    requires Good(W, start)
    requires Outcome(S, W, limit, start, r, full, b, delivered)
    requires Outcome(S, W, limit, start, r', full', b', delivered')
    ensures delivered <= delivered' || delivered' <= delivered
    ensures !full && !full' ==> r == r' && b == b' && delivered == delivered'
    ensures !full && r' != Waiting ==> r == r' && b == b' && delivered' <= delivered
  {
    hide Outcome, Output, Finish, Terminal;
    OutcomeIsOutput(S, W, limit, start, r, full, b, delivered);
    OutcomeIsOutput(S, W, limit, start, r', full', b', delivered');
  }

  /** The modes of the outer decoder for a stream without the zlib wrapper. */
  datatype Mode = Blocks | Ended | Failed

  /** A decoder and what it was started with. */
  class Inflate {
    const blocks: Inflater
    var mode: Mode
    ghost const start: State
    /** The last call that decoded anything stopped with no output space left. */
    ghost var full: bool

    ghost predicate Ready()
      reads this, blocks, blocks.window, blocks.hufts, blocks.blens
    {
      && Good(blocks.W, start)
      && blocks.Limit() <= |blocks.input|
      && Reaches(blocks.S(), blocks.W, blocks.Limit(), start, blocks.abs)
      && match mode
         case Blocks => Valid(blocks) && AtRest(blocks)
         case Ended =>
           && blocks.abs.block.Done?
           && blocks.W <= |blocks.abs.hist| && blocks.delivered == blocks.abs.hist[blocks.W..]
           && 8 * blocks.nextIn == RoundUp8(blocks.abs.pos)
         case Failed =>
           && Valid(blocks) && Terminal(blocks.abs) && !blocks.abs.block.Done?
           && (!full ==> blocks.delivered == blocks.abs.hist[blocks.W..])
    }

    /** Allocate nothing: the workspace is the caller's.  Its content does not matter. */
    constructor (input: seq<byte>, w: nat, window: array<byte>, hufts: array<Huft>, work: array<nat>, blens: array<nat>)
      requires 8 <= w <= 15 && window.Length == Pow2(w)
      requires hufts.Length == MANY && work.Length >= 288 && blens.Length == BLENS_SIZE && blens != work
      ensures Ready() && mode == Blocks && fresh(blocks)
      ensures blocks.input == input && blocks.W == Pow2(w) && blocks.nextIn == 0 && blocks.availIn == 0
      ensures blocks.window == window && blocks.hufts == hufts && blocks.work == work && blocks.blens == blens
      ensures start == State(0, window[..], false, Type, blens[..])
      ensures blocks.delivered == []
    {
      hide Reaches;
      start := State(0, window[..], false, Type, blens[..]);
      blocks := new Inflater(input, Pow2(w), window, hufts, work, blens);
      mode, full := Blocks, false;
      new;
      ReachesRefl(blocks.S(), blocks.W, 0, start);
    }
  }

  /** Forget where decoding was. */
  method BlocksReset(s: Inflater)
    modifies s`mode, s`bitb, s`bitk, s`read, s`write
    ensures s.mode == InType && s.bitk == s.bitb == s.read == s.write == 0
  {
    s.mode := InType;
    s.bitk := 0;
    s.bitb := 0;
    s.read, s.write := 0, 0;
  }

  lemma RoundUpUnique(p: nat, pos: nat)
    requires pos <= 8 * p < pos + 8
    ensures 8 * p == RoundUp8(pos)
  {
  }

  lemma ValidBound(s: Inflater)
    requires Valid(s)
    ensures s.Limit() <= |s.input| && Good(s.W, s.abs) && s.window.Length == s.W
  {
    hide Good, Buffer, Ring, ModeMatch;
  }

  lemma StarvedMeans(S: nat, W: nat, limit: nat, a: State)
    requires Starved(S, W, limit, a)
    ensures Good(W, a) && !Terminal(a) && !Enabled(S, W, limit, a)
  {
  }

  lemma DeliveredAll(s: Inflater)
    requires Valid(s)
    ensures s.W <= |s.abs.hist| && s.read <= s.W && s.write <= s.W && s.delivered <= s.abs.hist[s.W..]
    ensures Pending(s.W, s.read, s.write) == |s.abs.hist| - s.W - |s.delivered|
    ensures Pending(s.W, s.read, s.write) == 0 ==> s.delivered == s.abs.hist[s.W..]
  {
    hide Good, Buffer, Ring, ModeMatch;
  }

  /** Decode as far as input and output space allow. */
  method Decode(z: Inflate) returns (r: Status)
    requires z.Ready()
    modifies z`mode, z`full, z.blocks`nextIn, z.blocks`availIn, z.blocks`availOut, z.blocks`bitb, z.blocks`bitk,
             z.blocks`returned, z.blocks`abs, z.blocks`read, z.blocks`write, z.blocks`delivered, z.blocks`last,
             z.blocks`mode, z.blocks`hl, z.blocks`hd, z.blocks.window, z.blocks.hufts, z.blocks.work, z.blocks.blens
    ensures z.Ready() && z.blocks.Limit() == old(z.blocks.Limit())
    ensures var s := z.blocks;
            && Outcome(s.S(), s.W, s.Limit(), z.start, r, z.full, s.abs, s.delivered)
            && OutputMoves(old(s.availOut), old(s.delivered), s.availOut, s.delivered)
            && (r == Waiting ==>
                  && z.full == (s.availOut == 0) && |s.delivered| + s.W <= |s.abs.hist|
                  && ((s.availOut == 0 && Stuffed(s.W, |s.abs.hist| - s.W - |s.delivered|, s.abs))
                      || (s.availIn == 0 && Starved(s.S(), s.W, s.Limit(), s.abs))))
            && (r == StreamEnd ==> 8 * s.nextIn == RoundUp8(s.abs.pos))
    ensures z.mode == match r case Waiting => Blocks case StreamEnd => Ended case Corrupt => Failed
    ensures old(z.mode) == Blocks ==>
              && z.full == (z.blocks.availOut == 0)
              && var all := Output(z.blocks.S(), z.blocks.W, z.blocks.Limit(), z.start);
                 z.blocks.delivered == all[..Least(old(|z.blocks.delivered| + z.blocks.availOut), |all|)]
    ensures old(z.mode) != Blocks ==> z.mode == old(z.mode) && z.blocks.abs == old(z.blocks.abs) && z.blocks.delivered == old(z.blocks.delivered)
  {
    hide Good, Reaches, Buffer, Ring, Delivered, ModeMatch, Stream, Next, Need, Terminal, Valid, Starved, Finish, Output, Stuffed;
    var s := z.blocks;
    match z.mode {
      case Ended =>
        r := StreamEnd;
      case Failed =>
        DeliveredAll(s);
        r := Corrupt;
      case Blocks =>
        ghost var a := s.abs;
        r := InflateBlocks(s);
        ReachesTrans(s.S(), s.W, s.Limit(), z.start, a, s.abs);
        DeliveredAll(s);
        ValidBound(s);
        if r == Waiting && s.availOut > 0 { StarvedMeans(s.S(), s.W, s.Limit(), s.abs); }
        z.full := s.availOut == 0;
        if r == Corrupt {
          z.mode := Failed;
        } else if r == StreamEnd {
          BlocksBound(s);
          RoundUpUnique(s.nextIn, s.abs.pos);
          BlocksReset(s);
          z.mode := Ended;
        }
        OutcomeIsFilled(s.S(), s.W, s.Limit(), z.start, r, z.full, s.abs, s.delivered, old(|s.delivered|), old(s.availOut));
    }
  }

  /** One call: so many more bytes of input, and room for so many bytes of output. */
  datatype Call = Call(give: nat, room: nat)

  function Given(calls: seq<Call>): nat {
    if |calls| == 0 then 0 else Given(calls[..|calls| - 1]) + calls[|calls| - 1].give
  }

  function Room(calls: seq<Call>): nat {
    if |calls| == 0 then 0 else Room(calls[..|calls| - 1]) + calls[|calls| - 1].room
  }

  /** Hand over more input, and an empty output area. */
  method Supply(z: Inflate, call: Call)
    requires z.Ready() && z.blocks.Limit() + call.give <= |z.blocks.input|
    modifies z.blocks`availIn, z.blocks`availOut
    ensures z.Ready() && z.blocks.Limit() == old(z.blocks.Limit()) + call.give
    ensures z.blocks.availOut == call.room
  {
    hide Good, Reaches, Buffer, Ring, Delivered, ModeMatch, Stream, Next, Need, Terminal;
    var s := z.blocks;
    ReachesMoreInput(s.S(), s.W, s.Limit(), s.Limit() + call.give, z.start, s.abs);
    s.availIn, s.availOut := s.availIn + call.give, call.room;
  }

  /** The bytes delivered by calls that all leave the decoder running, but the last perhaps. */
  function Filled(S: nat, W: nat, start: State, calls: seq<Call>): nat
    requires Good(W, start)
  {
    if |calls| == 0 then 0
    else
      var n := |calls| - 1;
      Least(Filled(S, W, start, calls[..n]) + calls[n].room, |Output(S, W, Given(calls), start)|)
  }

  /** Decode by any series of calls, the decoder running for the first `n` of them.  What they
    * deliver together is what the output of the input they were given fills of their rooms, not
    * depending on how either is cut up; after an error that is all of it exactly if the rest had
    * room in the call that met the error. */
  method DecodeCalls(z: Inflate, calls: seq<Call>) returns (r: Status, ghost n: nat)
    requires z.Ready() && z.mode == Blocks && z.blocks.Limit() == 0 && z.blocks.delivered == []
    requires 0 < |calls| && Given(calls) <= |z.blocks.input|
    modifies z`mode, z`full, z.blocks`nextIn, z.blocks`availIn, z.blocks`availOut, z.blocks`bitb, z.blocks`bitk,
             z.blocks`returned, z.blocks`abs, z.blocks`read, z.blocks`write, z.blocks`delivered, z.blocks`last,
             z.blocks`mode, z.blocks`hl, z.blocks`hd, z.blocks.window, z.blocks.hufts, z.blocks.work, z.blocks.blens
    ensures z.Ready() && z.blocks.Limit() == Given(calls)
    ensures var s := z.blocks;
            && Good(s.W, z.start)
            && Outcome(s.S(), s.W, Given(calls), z.start, r, z.full, s.abs, s.delivered)
            && s.delivered <= Output(s.S(), s.W, Given(calls), z.start)
            && |s.delivered| <= Room(calls)
            && (!z.full || r == StreamEnd ==> s.delivered == Output(s.S(), s.W, Given(calls), z.start))
            && 0 < n <= |calls| && (r == Waiting ==> n == |calls|)
            && |s.delivered| == Filled(s.S(), s.W, z.start, calls[..n])
            && (r == Corrupt ==>
                  (s.delivered == Output(s.S(), s.W, Given(calls), z.start)
                   <==> Filled(s.S(), s.W, z.start, calls[..n - 1]) + calls[n - 1].room
                        >= |Output(s.S(), s.W, Given(calls), z.start)|))
            && (r == StreamEnd ==> 8 * s.nextIn == RoundUp8(Finish(s.S(), s.W, Given(calls), z.start).pos))
  {
    hide Good, Reaches, Buffer, Ring, Delivered, ModeMatch, Stream, Next, Need, Terminal, Outcome, Valid, Finish, Output;
    var s := z.blocks;
    r, n := Waiting, 0;
    var i := 0;
    while i < |calls|
      invariant 0 <= i <= |calls| && z.Ready() && z.blocks.Limit() == Given(calls[..i])
      invariant |s.delivered| <= Room(calls[..i])
      invariant i > 0 ==> Outcome(s.S(), s.W, Given(calls[..i]), z.start, r, z.full, s.abs, s.delivered)
      invariant i > 0 && r == StreamEnd ==> 8 * s.nextIn == RoundUp8(s.abs.pos)
      invariant (i == 0 || r == Waiting) == (z.mode == Blocks)
      invariant n <= i && (i > 0 ==> n > 0) && (z.mode == Blocks ==> n == i)
      invariant |s.delivered| == Filled(s.S(), s.W, z.start, calls[..n])
      invariant n > 0 ==> Output(s.S(), s.W, Given(calls[..i]), z.start) == Output(s.S(), s.W, Given(calls[..n]), z.start)
    {
      ghost var a, running := s.abs, z.mode == Blocks;
      assert calls[..i + 1][..i] == calls[..i];
      GivenMono(calls, i + 1);
      if !running {
        OutcomeIsOutput(s.S(), s.W, Given(calls[..i]), z.start, r, z.full, s.abs, s.delivered);
      }
      Supply(z, calls[i]);
      r := Decode(z);
      i := i + 1;
      if running {
        n := i;
      } else {
        OutcomeIsOutput(s.S(), s.W, Given(calls[..i]), z.start, r, z.full, s.abs, s.delivered);
        SameOutput(s.S(), s.W, Given(calls[..i - 1]), Given(calls[..i]), z.start);
      }
    }
    assert calls[..i] == calls;
    OutcomeIsOutput(s.S(), s.W, Given(calls), z.start, r, z.full, s.abs, s.delivered);
    assert calls[..n][..n - 1] == calls[..n - 1];
  }

  lemma SameOutput(S: nat, W: nat, limit: nat, limit': nat, start: State)
    requires Good(W, start) && Finish(S, W, limit, start) == Finish(S, W, limit', start)
    ensures Output(S, W, limit, start) == Output(S, W, limit', start)
  {
    hide Finish, Good;
  }

  lemma {:induction false} GivenMono(calls: seq<Call>, i: nat)
    requires i <= |calls|
    ensures Given(calls[..i]) <= Given(calls)
    decreases |calls| - i
  {
    if i < |calls| {
      assert calls[..i + 1][..i] == calls[..i];
      GivenMono(calls, i + 1);
    } else {
      assert calls[..i] == calls;
    }
  }
}
