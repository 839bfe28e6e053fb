/** Any run of reads and writes of inodes through the cache: each read gives what the last successful
  * write of that inode put there, as if there were no cache, no buffer and no blocks.
  */
module Ext2InodeRun {
  import opened Bits
  import opened Ext2File
  import opened Ext2Disk
  import opened Ext2Inode

  datatype Op = Read(ino: nat) | Write(ino: nat, inode: seq<byte>)

  datatype Answer = ReadAnswer(r: ReadResult) | WriteAnswer(w: WriteResult)

  type Inodes = nat -> seq<byte>

  predicate IsOp(op: Op) {
    op.ino > 0 && (op.Write? ==> |op.inode| == INODE_BYTES)
  }

  /** Which inodes there are. */
  function Trouble(l: Layout, ino: nat): (why: seq<Failure>)
    requires WfLayout(l) && ino > 0
    ensures |why| <= 1
  {
    if ino > l.count then [BadInodeNum] else if !HasTable(l, ino) then [MissingInodeTable] else []
  }

  /** The answer of a plain list of inodes. */
  function AnswerTo(l: Layout, inodes: Inodes, op: Op): Answer
    requires WfLayout(l) && IsOp(op)
  {
    var why := Trouble(l, op.ino);
    match op
    case Read(ino) => ReadAnswer(if why == [] then Got(inodes(ino)) else ReadFailed(why[0]))
    case Write(_, _) => WriteAnswer(if why == [] then Written else WriteFailed(why[0]))
  }

  function After(l: Layout, inodes: Inodes, op: Op): Inodes
    requires WfLayout(l) && IsOp(op)
  {
    if op.Write? && Trouble(l, op.ino) == [] then (n: nat) => if n == op.ino then op.inode else inodes(n) else inodes
  }

  function Answers(l: Layout, inodes: Inodes, ops: seq<Op>): seq<Answer>
    requires WfLayout(l) && forall op :: op in ops ==> IsOp(op)
    decreases |ops|
  {
    if ops == [] then [] else [AnswerTo(l, inodes, ops[0])] + Answers(l, After(l, inodes, ops[0]), ops[1..])
  }

  function AfterAll(l: Layout, inodes: Inodes, ops: seq<Op>): Inodes
    requires WfLayout(l) && forall op :: op in ops ==> IsOp(op)
    decreases |ops|
  {
    if ops == [] then inodes else AfterAll(l, After(l, inodes, ops[0]), ops[1..])
  }

  /** The inodes of the file system are those on the disk. */
  ghost predicate OnDisk(l: Layout, disk: Disk, inodes: Inodes)
    requires WfLayout(l) && BlockSized(disk, l.bs)
  {
    forall ino :: 0 < ino <= l.count && HasTable(l, ino) ==> Decode(l, disk, ino) == inodes(ino)
  }

  lemma WriteOnDisk(l: Layout, disk: Disk, disk': Disk, inodes: Inodes, op: Op)
    requires WfLayout(l) && BlockSized(disk, l.bs) && BlockSized(disk', l.bs) && IsOp(op) && op.Write?
    requires OnDisk(l, disk, inodes) && Trouble(l, op.ino) == [] && Wrote(disk, disk', l.bs, Address(l, op.ino), op.inode)
    ensures OnDisk(l, disk', After(l, inodes, op))
  {
    hide WfLayout, HasTable, Decode, Wrote, Address;
    forall ino | 0 < ino <= l.count && HasTable(l, ino) ensures Decode(l, disk', ino) == After(l, inodes, op)(ino) {
      WriteDecode(l, disk, disk', op.ino, op.inode, ino);
    }
  }

  /** Do one of them.  On a read-only file system nothing must be written: there a refused write still changes
    * what the cache shows. */
  method DoOne(c: InodeCache, op: Op, ghost inodes: Inodes) returns (answer: Answer)
    requires c.Valid() && OnDisk(c.layout, c.disk, inodes) && IsOp(op) && (op.Write? ==> c.writable)
    modifies c`created, c`bufferBlk, c`cacheLast, c`disk, c.buffer, c.cacheIno, c.cacheInode
    ensures c.Valid() && answer == AnswerTo(c.layout, inodes, op) && OnDisk(c.layout, c.disk, After(c.layout, inodes, op))
  {
    hide WfLayout, HasTable, Decode, Wrote, Address, OnDisk, After;
    ghost var before := c.disk;
    match op {
      case Read(ino) =>
        var r := c.ReadInode(ino);
        ReadIs(c.layout, c.disk, inodes, op);
        answer := ReadAnswer(r);
      case Write(ino, inode) =>
        var w := c.WriteInode(ino, inode);
        if w == Written { WriteOnDisk(c.layout, before, c.disk, inodes, op); } else { AfterNone(c.layout, inodes, op); }
        answer := WriteAnswer(w);
    }
  }

  /** Do all that is asked for, one after the other. */
  method DoAll(c: InodeCache, ops: seq<Op>, ghost inodes: Inodes) returns (answers: seq<Answer>)
    requires c.Valid() && OnDisk(c.layout, c.disk, inodes)
    requires forall op :: op in ops ==> IsOp(op) && (op.Write? ==> c.writable)
    modifies c`created, c`bufferBlk, c`cacheLast, c`disk, c.buffer, c.cacheIno, c.cacheInode
    ensures c.Valid()
    ensures answers == Answers(c.layout, inodes, ops)
    ensures OnDisk(c.layout, c.disk, AfterAll(c.layout, inodes, ops))
  {
    hide WfLayout, OnDisk, After, Answers, AfterAll, AnswerTo, IsOp;
    answers := [];
    ghost var now: Inodes := inodes;
    assert ops[0..] == ops;
    for i := 0 to |ops|
      invariant c.Valid() && OnDisk(c.layout, c.disk, now)
      invariant answers + Answers(c.layout, now, ops[i..]) == Answers(c.layout, inodes, ops)
      invariant AfterAll(c.layout, now, ops[i..]) == AfterAll(c.layout, inodes, ops)
    {
      assert ops[i] in ops;
      FirstOf(c.layout, now, ops, i);
      var answer := DoOne(c, ops[i], now);
      answers := answers + [answer];
      now := After(c.layout, now, ops[i]);
    }
    NoneLeft(c.layout, now, ops[|ops|..]);
  }

  lemma NoneLeft(l: Layout, inodes: Inodes, ops: seq<Op>)
    requires WfLayout(l) && ops == []
    ensures Answers(l, inodes, ops) == [] && AfterAll(l, inodes, ops) == inodes
  {
  }

  lemma FirstOf(l: Layout, inodes: Inodes, ops: seq<Op>, i: nat)
    requires WfLayout(l) && i < |ops| && forall op :: op in ops ==> IsOp(op)
    ensures var after := After(l, inodes, ops[i]);
            && Answers(l, inodes, ops[i..]) == [AnswerTo(l, inodes, ops[i])] + Answers(l, after, ops[i + 1..])
            && AfterAll(l, inodes, ops[i..]) == AfterAll(l, after, ops[i + 1..])
  {
    hide WfLayout, After;
    assert ops[i..][0] == ops[i] && ops[i..][1..] == ops[i + 1..];
  }

  lemma ReadIs(l: Layout, disk: Disk, inodes: Inodes, op: Op)
    requires WfLayout(l) && BlockSized(disk, l.bs) && OnDisk(l, disk, inodes) && IsOp(op) && op.Read?
    ensures AnswerTo(l, inodes, op) == ReadAnswer(DirectRead(l, disk, op.ino)) && After(l, inodes, op) == inodes
  {
    hide WfLayout, HasTable, Decode;
  }

  lemma AfterNone(l: Layout, inodes: Inodes, op: Op)
    requires WfLayout(l) && IsOp(op) && Trouble(l, op.ino) != []
    ensures After(l, inodes, op) == inodes
  {
  }

  /** A read gives what the last write of that inode wrote, if there was one, and otherwise what was there. */
  lemma {:induction false} ReadsLast(l: Layout, inodes: Inodes, ops: seq<Op>, i: nat)
    requires WfLayout(l) && (forall op :: op in ops ==> IsOp(op)) && i < |ops| && ops[i].Read?
    requires IsOp(ops[i]) && Trouble(l, ops[i].ino) == []
    ensures |Answers(l, inodes, ops)| == |ops|
    ensures Answers(l, inodes, ops)[i] == ReadAnswer(Got(Last(inodes, ops[..i], ops[i].ino)))
    decreases |ops|
  {
    hide WfLayout, HasTable, Trouble;
    AnswersLength(l, inodes, ops);
    if i > 0 {
      var after := After(l, inodes, ops[0]);
      ReadsLast(l, after, ops[1..], i - 1);
      AnswersLength(l, after, ops[1..]);
      assert ops[1..][i - 1] == ops[i] && ops[1..][..i - 1] == ops[..i][1..];
      LastFirst(inodes, after, ops[..i], ops[i].ino);
    }
  }

  lemma {:induction false} AnswersLength(l: Layout, inodes: Inodes, ops: seq<Op>)
    requires WfLayout(l) && forall op :: op in ops ==> IsOp(op)
    ensures |Answers(l, inodes, ops)| == |ops|
    decreases |ops|
  {
    hide WfLayout, After, AnswerTo;
    if ops != [] { AnswersLength(l, After(l, inodes, ops[0]), ops[1..]); }
  }

  /** The last of the writes of inode `ino`. */
  function Last(inodes: Inodes, ops: seq<Op>, ino: nat): seq<byte>
    decreases |ops|
  {
    if ops == [] then inodes(ino)
    else if ops[|ops| - 1].Write? && ops[|ops| - 1].ino == ino then ops[|ops| - 1].inode
    else Last(inodes, ops[..|ops| - 1], ino)
  }

  lemma {:induction false} LastFirst(inodes: Inodes, after: Inodes, ops: seq<Op>, ino: nat)
    requires |ops| > 0
    requires after(ino) == if ops[0].Write? && ops[0].ino == ino then ops[0].inode else inodes(ino)
    ensures Last(inodes, ops, ino) == Last(after, ops[1..], ino)
    decreases |ops|
  {
    if |ops| > 1 {
      assert ops[1..][|ops| - 2] == ops[|ops| - 1] && ops[1..][..|ops| - 2] == ops[..|ops| - 1][1..];
      LastFirst(inodes, after, ops[..|ops| - 1], ino);
    } else {
      assert ops[..0] == [] && ops[1..] == [];
    }
  }
}
