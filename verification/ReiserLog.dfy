/** The ReiserFS journal: a ring of log blocks holding transactions one after the other, each a
  * descriptor, copies of blocks, and a commit block.
  */
module ReiserLog {
  import opened Division

  /** The home block numbers of the copies, in the order of the copies. */
  type Transaction = seq<nat>

  /** So many home block numbers fit into a descriptor; the others are in the commit block. */
  const TRANS_HALF: nat := 1018

  /** In place of a length in the cached list: the other transactions are not cached. */
  const END_OF_CACHE: nat := 0xffffffff

  datatype Desc = Desc(len: nat, realBlock: seq<nat>)

  datatype Commit = Commit(realBlock: seq<nat>)

  /** Every log block, read as a descriptor and as a commit block. */
  datatype Log = Log(desc: nat -> Desc, commit: nat -> Commit, count: nat)

  /** Positions in the log wrap around. */
  function Wrap(x: nat, count: nat): (r: nat)
    requires count > 0
    ensures r < count
    decreases x
  {
    if x < count then x else Wrap(x - count, count)
  }

  lemma {:induction false} WrapWrap(x: nat, y: nat, count: nat)
    requires count > 0
    ensures Wrap(Wrap(x, count) + y, count) == Wrap(x + y, count)
    decreases x
  {
    if x >= count {
      WrapWrap(x - count, y, count);
      assert x + y - count == x - count + y;
    }
  }

  /** The log blocks taken by the first `t` transactions. */
  function Length(ts: seq<Transaction>, t: nat): nat
    requires t <= |ts|
  {
    if t == 0 then 0 else Length(ts, t - 1) + 2 + |ts[t - 1]|
  }

  /** Where the descriptor of transaction `t` is. */
  function Start(ts: seq<Transaction>, first: nat, count: nat, t: nat): nat
    requires t <= |ts| && count > 0
  {
    Wrap(first + Length(ts, t), count)
  }

  lemma StartNext(ts: seq<Transaction>, first: nat, count: nat, t: nat)
    requires t < |ts| && count > 0
    ensures Start(ts, first, count, t + 1) == Wrap(Start(ts, first, count, t) + 2 + |ts[t]|, count)
  {
    WrapWrap(first + Length(ts, t), 2 + |ts[t]|, count);
  }

  lemma {:induction false} WrapIs(x: nat, count: nat)
    requires count > 0
    ensures Wrap(x, count) == x % count
    decreases x
  {
    if x >= count {
      WrapIs(x - count, count);
      ModuloLess(x, count);
    }
  }

  /** Transactions follow each other around the log: each takes a block for its descriptor, one for every copy and
    * one for its end. */
  lemma StartIs(ts: seq<Transaction>, first: nat, count: nat, t: nat)
    requires count > 0 && first < count && t <= |ts|
    ensures Start(ts, first, count, 0) == first
    ensures t < |ts| ==> Start(ts, first, count, t + 1) == (Start(ts, first, count, t) + |ts[t]| + 2) % count
  {
    WrapIs(first, count);
    if t < |ts| {
      StartNext(ts, first, count, t);
      WrapIs(Start(ts, first, count, t) + 2 + |ts[t]|, count);
    }
  }

  /** The newest copy of a block comes after the descriptor of its transaction and the copies before it there; a block
    * in none of the transactions is read from home. */
  lemma NewestAt(ts: seq<Transaction>, first: nat, count: nat, base: nat, b: nat, t: nat)
    requires count > 0 && t < |ts|
    ensures Newest(ts, first, count, base, b, 0) == b
    ensures var i := IndexOf(ts[t], b);
            Newest(ts, first, count, base, b, t + 1) == if b in ts[t] then base + (Start(ts, first, count, t) + 1 + i) % count
                                                        else Newest(ts, first, count, base, b, t)
  {
    WrapIs(Start(ts, first, count, t) + 1 + IndexOf(ts[t], b), count);
  }

  /** Log block `start` and the commit block after the copies describe transaction `tr`. */
  ghost predicate Describes(log: Log, start: nat, tr: Transaction)
    requires log.count > 0
  {
    var d, c := log.desc(start), log.commit(Wrap(start + 1 + |tr|, log.count));
    && d.len == |tr| <= 2 * 1018
    && |d.realBlock| == |c.realBlock| == 1018
    && (forall i :: 0 <= i < |tr| && i < 1018 ==> d.realBlock[i] == tr[i])
    && (forall i :: 1018 <= i < |tr| ==> c.realBlock[i - 1018] == tr[i])
  }

  /** The log holds the transactions `ts`, from block `first` on. */
  ghost predicate Holds(log: Log, first: nat, ts: seq<Transaction>) {
    log.count > 0 && first < log.count
    && forall t :: 0 <= t < |ts| ==> Describes(log, Start(ts, first, log.count, t), ts[t])
  }

  // ----- The cached list

  /** What is kept in memory of the transactions from `t` on in `room` words: lengths and home
    * block numbers, and an end mark if they do not all fit. */
  function Cached(ts: seq<Transaction>, t: nat, room: nat): (r: seq<nat>)
    requires t <= |ts| && room > 0
    ensures |r| <= room
    decreases |ts| - t
  {
    if t == |ts| then []
    else if 1 + |ts[t]| >= room then [END_OF_CACHE]
    else [|ts[t]|] + ts[t] + Cached(ts, t + 1, room - 1 - |ts[t]|)
  }

  // ----- Meaning

  /** The first place of `b` in a transaction, or its length. */
  function IndexOf(tr: Transaction, b: nat): (i: nat)
    ensures i <= |tr|
    ensures i < |tr| ==> tr[i] == b
    ensures forall j :: 0 <= j < i ==> tr[j] != b
  {
    if |tr| == 0 || tr[0] == b then 0 else 1 + IndexOf(tr[1..], b)
  }

  /** Where block `b` is read from when the first `t` transactions count. */
  function Newest(ts: seq<Transaction>, first: nat, count: nat, base: nat, b: nat, t: nat): nat
    requires t <= |ts| && count > 0
  {
    if t == 0 then b
    else
      var i := IndexOf(ts[t - 1], b);
      if i < |ts[t - 1]| then base + Wrap(Start(ts, first, count, t - 1) + 1 + i, count)
      else Newest(ts, first, count, base, b, t - 1)
  }

  /** A disk's blocks.  Their content is not looked into. */
  type Blocks = nat -> seq<int>

  /** The disk after the copies of a transaction, from number `i` on, have been written home. */
  function WriteHome(disk: Blocks, log: Blocks, tr: Transaction, start: nat, count: nat, i: nat): Blocks
    requires count > 0
    decreases |tr| - i
  {
    if i >= |tr| then disk
    else
      var copy := log(Wrap(start + 1 + i, count));
      WriteHome((b: nat) => if b == tr[i] then copy else disk(b), log, tr, start, count, i + 1)
  }

  /** The disk after the first `t` transactions have been replayed in order. */
  function Replay(disk: Blocks, log: Blocks, ts: seq<Transaction>, first: nat, count: nat, t: nat): Blocks
    requires t <= |ts| && count > 0
  {
    if t == 0 then disk
    else WriteHome(Replay(disk, log, ts, first, count, t - 1), log, ts[t - 1], Start(ts, first, count, t - 1), count, 0)
  }

  /** The last place of `b` in a transaction from place `i` on, or the transaction's length. */
  function LastIndexOf(tr: Transaction, b: nat, i: nat): (r: nat)
    requires i <= |tr|
    ensures i <= r <= |tr|
    ensures r < |tr| ==> tr[r] == b
    ensures forall j :: i <= j < |tr| && (j > r || r == |tr|) ==> tr[j] != b
    decreases |tr| - i
  {
    if i == |tr| then i
    else
      var r := LastIndexOf(tr, b, i + 1);
      if r == |tr| && tr[i] == b then i else r
  }

  lemma {:induction false} WriteHomeAt(disk: Blocks, log: Blocks, tr: Transaction, start: nat, count: nat, i: nat, b: nat)
    requires count > 0 && i <= |tr|
    ensures var r := LastIndexOf(tr, b, i);
            WriteHome(disk, log, tr, start, count, i)(b) ==
            if r < |tr| then log(Wrap(start + 1 + r, count)) else disk(b)
    decreases |tr| - i
  {
    if i < |tr| {
      var copy := log(Wrap(start + 1 + i, count));
      var disk' := (c: nat) => if c == tr[i] then copy else disk(c);
      WriteHomeAt(disk', log, tr, start, count, i + 1, b);
    }
  }

  /** In the newest of the first `t` transactions that list block `b`, its first copy and its last
    * are the same. */
  ghost predicate OneCopy(disk: Blocks, ts: seq<Transaction>, first: nat, count: nat, base: nat, b: nat, t: nat)
    requires t <= |ts| && count > 0
  {
    t > 0 ==>
      var tr, start := ts[t - 1], Start(ts, first, count, t - 1);
      if b in tr then
        disk(base + Wrap(start + 1 + IndexOf(tr, b), count)) == disk(base + Wrap(start + 1 + LastIndexOf(tr, b, 0), count))
      else OneCopy(disk, ts, first, count, base, b, t - 1)
  }

  /** Reading a block where its newest copy is gives what replaying the log would have put at
    * its home, the last transaction that has the block winning, exactly if that transaction has
    * only one content for it. */
  lemma {:induction false} NewestIsReplay(disk: Blocks, ts: seq<Transaction>, first: nat, count: nat, base: nat, b: nat, t: nat)
    requires t <= |ts| && count > 0
    ensures disk(Newest(ts, first, count, base, b, t)) == Replay(disk, (p: nat) => disk(base + p), ts, first, count, t)(b)
            <==> OneCopy(disk, ts, first, count, base, b, t)
  {
    if t > 0 {
      var log := (p: nat) => disk(base + p);
      NewestIsReplay(disk, ts, first, count, base, b, t - 1);
      WriteHomeAt(Replay(disk, log, ts, first, count, t - 1), log, ts[t - 1], Start(ts, first, count, t - 1), count, 0, b);
    }
  }

  /** A block that no transaction lists twice is read as replaying the log would leave it. */
  lemma {:induction false} OnceIsReplay(disk: Blocks, ts: seq<Transaction>, first: nat, count: nat, base: nat, b: nat, t: nat)
    requires t <= |ts| && count > 0
    requires forall u :: 0 <= u < t ==> IndexOf(ts[u], b) == LastIndexOf(ts[u], b, 0)
    ensures disk(Newest(ts, first, count, base, b, t)) == Replay(disk, (p: nat) => disk(base + p), ts, first, count, t)(b)
  {
    OneCopyOnce(disk, ts, first, count, base, b, t);
    NewestIsReplay(disk, ts, first, count, base, b, t);
  }

  lemma {:induction false} OneCopyOnce(disk: Blocks, ts: seq<Transaction>, first: nat, count: nat, base: nat, b: nat, t: nat)
    requires t <= |ts| && count > 0
    requires forall u :: 0 <= u < t ==> IndexOf(ts[u], b) == LastIndexOf(ts[u], b, 0)
    ensures OneCopy(disk, ts, first, count, base, b, t)
  {
    if t > 0 { OneCopyOnce(disk, ts, first, count, base, b, t - 1); }
  }

  /** A block that is twice in one transaction is read from its first copy, although replaying
    * would leave the last one. */
  lemma TwiceInOne(disk: Blocks, base: nat, b: nat)
    requires disk(base + 1) != disk(base + 2)
    ensures var ts := [[b, b]];
            && disk(Newest(ts, 0, 8, base, b, 1)) == disk(base + 1)
            && Replay(disk, (p: nat) => disk(base + p), ts, 0, 8, 1)(b) == disk(base + 2)
  {
    var tr := [b, b];
    assert IndexOf(tr, b) == 0 && Start([tr], 0, 8, 0) == 0;
    assert LastIndexOf(tr, b, 0) == LastIndexOf(tr, b, 1) == 1;
    WriteHomeAt(disk, (p: nat) => disk(base + p), tr, 0, 8, 0, b);
  }
}
