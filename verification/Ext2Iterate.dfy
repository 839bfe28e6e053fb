/** Iterating over the blocks of an ext2 inode. */
module Ext2Iterate {
  import opened Ext2Map

  class Context {
    const fs: Fs
    const func: Callback

    /** The logical number of the next data block. */
    var bcount: nat

    /** The calls made to the callback. */
    var calls: seq<Call>

    constructor (fs: Fs, func: Callback)
      ensures this.fs == fs && this.func == func && bcount == 0 && calls == []
    {
      this.fs, this.func, bcount, calls := fs, func, 0, [];
    }

    /** The calls of pointer `b` of a level have been made, or an indirect block does not exist. */
    ghost predicate Did(done: seq<Call>, base: nat, level: nat, b: nat, abort: bool, error: bool)
      reads this
    {
      && (error ==> !InRange(fs, level, b))
      && (InRange(fs, level, b) ==>
            && Made(func, done, CallsAt(fs, level, b, base), calls, abort)
            && (!abort ==> bcount == base + Span(fs.limit, level)))
    }

    method Func(count: int, blk: nat) returns (abort: bool)
      modifies this`calls
      ensures calls == old(calls) + [Call(count, blk)]
      ensures Made(func, old(calls), [Call(count, blk)], calls, abort)
    {
      MadeOne(func, calls, Call(count, blk));
      calls := calls + [Call(count, blk)];
      abort := func(calls);
    }

    /** Report an indirect block before what is below it. */
    method Before(level: nat, b: nat) returns (abort: bool)
      modifies this`calls
      ensures Made(func, old(calls), ReportBefore(fs, level, b), calls, abort)
    {
      abort := false;
      MadeOne(func, calls, Call(0 - level, b));
      if !fs.depthTraverse && !fs.dataOnly {
        abort := Func(0 - level, b);
      }
    }

    /** Report it after. */
    method After(level: nat, b: nat) returns (abort: bool)
      modifies this`calls
      ensures Made(func, old(calls), ReportAfter(fs, level, b), calls, abort)
    {
      abort := false;
      MadeOne(func, calls, Call(0 - level, b));
      if fs.depthTraverse && !fs.dataOnly {
        abort := Func(0 - level, b);
      }
    }

    /** The blocks under an indirect block. */
    method IterateInd(b: nat) returns (abort: bool, error: bool)
      requires WellFormed(fs) && b != 0
      modifies this
      ensures Did(old(calls), old(bcount), 1, b, abort, error)
      // blocks after one that does not exist are numbered as if it spanned nothing
      ensures error ==> bcount == old(bcount)
    {
      hide Until, Aborts, Remains, Made, CallsFrom, Span;
      ghost var done, base := calls, bcount;
      ghost var todo := CallsAt(fs, 1, b, base);
      Parts(fs, func, 1, b, done, base);
      error := false;
      abort := Before(1, b);
      ghost var rest := CallsFrom(fs, 1, fs.read(b), 0, base) + ReportAfter(fs, 1, b);
      RemainsStep(func, done, todo, done, ReportBefore(fs, 1, b), rest, calls, abort);
      if abort {
        bcount := bcount + fs.limit;
        return;
      }
      if b >= fs.blocks || b < fs.first {
        error := true;
        return;
      }
      var ptrs := fs.read(b);
      var i := 0;
      while i < fs.limit
        invariant 0 <= i <= fs.limit && bcount == base + i
        invariant Remains(func, done, todo, calls, CallsFrom(fs, 1, ptrs, i, bcount) + ReportAfter(fs, 1, b))
      {
        ghost var c := calls;
        MadeOne(func, calls, Call(bcount, ptrs[i]));
        if ptrs[i] != 0 {
          abort := Func(bcount, ptrs[i]);
        }
        NextPart(fs, func, 1, ptrs, i, bcount, ReportAfter(fs, 1, b), done, todo, c, calls, abort);
        if abort {
          return;
        }
        i, bcount := i + 1, bcount + 1;
      }
      LastPart(fs, func, 1, ptrs, bcount, ReportAfter(fs, 1, b), done, todo, calls);
      ghost var c := calls;
      abort := After(1, b);
      Closing(func, done, todo, c, ReportAfter(fs, 1, b), calls, abort);
    }
  
    /** The blocks under a doubly indirect block. */
    method IterateDind(b: nat) returns (abort: bool, error: bool)
      requires WellFormed(fs) && b != 0
      modifies this
      ensures Did(old(calls), old(bcount), 2, b, abort, error)
    {
      hide Until, Aborts, Remains, Made, CallsFrom, Span, Did, InRange, RestSpan;
      ghost var done, base, ok := calls, bcount, InRange(fs, 2, b);
      ghost var todo, post := CallsAt(fs, 2, b, base), ReportAfter(fs, 2, b);
      Parts(fs, func, 2, b, done, base);
      SpanIs(fs, 2, b);
      error := false;
      abort := Before(2, b);
      RemainsStep(func, done, todo, done, ReportBefore(fs, 2, b), CallsFrom(fs, 2, fs.read(b), 0, base) + post, calls, abort);
      if abort {
        bcount := bcount + fs.limit * fs.limit;
        DidAbort(done, base, 2, b);
        return;
      }
      if b >= fs.blocks || b < fs.first {
        error := true;
        DidError(done, base, 2, b, abort);
        return;
      }
      var ptrs := fs.read(b);
      var i := 0;
      while i < fs.limit && !abort && !error
        invariant 0 <= i <= fs.limit && (error ==> !ok)
        invariant ok && !abort ==>
                    && bcount + RestSpan(fs.limit, 2, fs.limit, i) == base + Span(fs.limit, 2)
                    && Remains(func, done, todo, calls, CallsFrom(fs, 2, ptrs, i, bcount) + post)
        invariant ok && abort ==> Made(func, done, todo, calls, true)
        decreases fs.limit - i, !abort, !error
      {
        ghost var c, at := calls, bcount;
        if ptrs[i] == 0 {
          MadeHole(fs, func, 2 - 1, c, at);
          bcount := bcount + fs.limit;
        } else {
          abort, error := IterateInd(ptrs[i]);
          DidInside(c, at, 2, b, i, abort, error);
        }
        if ok {
          NextPart(fs, func, 2, ptrs, i, at, post, done, todo, c, calls, abort);
          RestNext(fs.limit, 2, i);
        }
        if !abort && !error {
          i := i + 1;
        }
      }
      if !abort {
        if ok { LastPart(fs, func, 2, ptrs, bcount, post, done, todo, calls); }
        ghost var c := calls;
        abort := After(2, b);
        if ok { Closing(func, done, todo, c, post, calls, abort); }
      }
      DidAll(done, base, 2, b, abort, error);
    }

    /** The blocks under a triply indirect block. */
    method IterateTind(b: nat) returns (abort: bool, error: bool)
      requires WellFormed(fs) && b != 0
      modifies this
      ensures Did(old(calls), old(bcount), 3, b, abort, error)
    {
      hide Until, Aborts, Remains, Made, CallsFrom, Span, Did, InRange, RestSpan;
      var square := fs.limit * fs.limit;
      ghost var done, base, ok := calls, bcount, InRange(fs, 3, b);
      ghost var todo, post := CallsAt(fs, 3, b, base), ReportAfter(fs, 3, b);
      Parts(fs, func, 3, b, done, base);
      SpanIs(fs, 3, b);
      error := false;
      abort := Before(3, b);
      RemainsStep(func, done, todo, done, ReportBefore(fs, 3, b), CallsFrom(fs, 3, fs.read(b), 0, base) + post, calls, abort);
      if abort {
        bcount := bcount + square * fs.limit;
        DidAbort(done, base, 3, b);
        return;
      }
      if b >= fs.blocks || b < fs.first {
        error := true;
        DidError(done, base, 3, b, abort);
        return;
      }
      var ptrs := fs.read(b);
      var i := 0;
      while i < fs.limit && !abort && !error
        invariant 0 <= i <= fs.limit && (error ==> !ok)
        invariant ok && !abort ==>
                    && bcount + RestSpan(fs.limit, 3, fs.limit, i) == base + Span(fs.limit, 3)
                    && Remains(func, done, todo, calls, CallsFrom(fs, 3, ptrs, i, bcount) + post)
        invariant ok && abort ==> Made(func, done, todo, calls, true)
        decreases fs.limit - i, !abort, !error
      {
        ghost var c, at := calls, bcount;
        if ptrs[i] == 0 {
          MadeHole(fs, func, 3 - 1, c, at);
          bcount := bcount + square;
        } else {
          abort, error := IterateDind(ptrs[i]);
          DidInside(c, at, 3, b, i, abort, error);
        }
        if ok {
          NextPart(fs, func, 3, ptrs, i, at, post, done, todo, c, calls, abort);
          RestNext(fs.limit, 3, i);
        }
        if !abort && !error {
          i := i + 1;
        }
      }
      if !abort {
        if ok { LastPart(fs, func, 3, ptrs, bcount, post, done, todo, calls); }
        ghost var c := calls;
        abort := After(3, b);
        if ok { Closing(func, done, todo, c, post, calls, abort); }
      }
      DidAll(done, base, 3, b, abort, error);
    }

    /** The direct blocks of an inode. */
    method IterateDirect(ptrs: seq<nat>, ghost todo: seq<Call>, ghost rest: seq<Call>) returns (abort: bool)
      requires |ptrs| == NDIR_BLOCKS + 3 && bcount == 0
      requires Remains(func, [], todo, calls, CallsFrom(fs, 1, ptrs[..NDIR_BLOCKS], 0, 0) + rest)
      modifies this
      ensures if abort then Made(func, [], todo, calls, true)
              else bcount == NDIR_BLOCKS && Remains(func, [], todo, calls, rest)
    {
      hide Until, Aborts, Remains, Made, CallsFrom, Span;
      ghost var direct := ptrs[..NDIR_BLOCKS];
      abort := false;
      var i := 0;
      while i < NDIR_BLOCKS
        invariant 0 <= i <= NDIR_BLOCKS && bcount == i
        invariant Remains(func, [], todo, calls, CallsFrom(fs, 1, direct, i, bcount) + rest)
      {
        ghost var c := calls;
        MadeOne(func, calls, Call(bcount, ptrs[i]));
        if ptrs[i] != 0 {
          abort := Func(bcount, ptrs[i]);
        }
        NextPart(fs, func, 1, direct, i, bcount, rest, [], todo, c, calls, abort);
        if abort {
          return;
        }
        i, bcount := i + 1, bcount + 1;
      }
      LastPart(fs, func, 1, direct, bcount, rest, [], todo, calls);
    }

    /** What one of the indirect pointers of an inode leaves behind. */
    ghost predicate TopDid(todo: seq<Call>, rest: seq<Call>, next: nat, abort: bool)
      reads this
    {
      if abort then Made(func, [], todo, calls, true) else bcount == next && Remains(func, [], todo, calls, rest)
    }

    lemma TopStep(todo: seq<Call>, rest: seq<Call>, done: seq<Call>, base: nat, level: nat, b: nat, abort: bool, error: bool)
      requires Did(done, base, level, b, abort, error) && InRange(fs, level, b)
      requires Remains(func, [], todo, done, CallsAt(fs, level, b, base) + rest)
      ensures !error && TopDid(todo, rest, base + Span(fs.limit, level), abort)
    {
      hide Until, Aborts, Remains, Made, Span, CallsAt, InRange;
      RemainsStep(func, [], todo, done, CallsAt(fs, level, b, base), rest, calls, abort);
    }

    lemma TopHole(todo: seq<Call>, rest: seq<Call>, done: seq<Call>, base: nat, level: nat)
      requires calls == done && bcount == base + Span(fs.limit, level)
      requires Remains(func, [], todo, done, CallsAt(fs, level, 0, base) + rest)
      ensures TopDid(todo, rest, base + Span(fs.limit, level), false)
    {
      hide Until, Aborts, Remains, Span;
      assert CallsAt(fs, level, 0, base) + rest == rest;
    }

    /** Iterate over the 15 pointers of an inode. */
    method BlockIterate(ptrs: seq<nat>) returns (abort: bool, error: bool)
      requires WellFormed(fs) && |ptrs| == NDIR_BLOCKS + 3 && bcount == 0 && calls == []
      modifies this
      ensures error ==> !InodeInRange(fs, ptrs)
      ensures InodeInRange(fs, ptrs) ==> Made(func, [], InodeCalls(fs, ptrs), calls, abort)
    {
      hide Until, Aborts, Remains, Made, CallsFrom, CallsAt, Span, Did, InRange, RestSpan;
      var n := NDIR_BLOCKS;
      ghost var s1, s2 := Span(fs.limit, 1), Span(fs.limit, 2);
      ghost var c1, c2, c3 := CallsAt(fs, 1, ptrs[n], n), CallsAt(fs, 2, ptrs[n + 1], n + s1), CallsAt(fs, 3, ptrs[n + 2], n + s1 + s2);
      ghost var todo := InodeCalls(fs, ptrs);
      SpanIs(fs, 1, 0);
      InodeParts(fs, func, ptrs);
      error := false;
      abort := IterateDirect(ptrs, todo, c1 + (c2 + c3));
      if abort {
        return;
      }
      ghost var done, base := calls, bcount;
      if ptrs[n] != 0 {
        abort, error := IterateInd(ptrs[n]);
        if InRange(fs, 1, ptrs[n]) { TopStep(todo, c2 + c3, done, base, 1, ptrs[n], abort, error); }
        DidNoError(done, base, 1, ptrs[n], abort, error);
        if abort {
          return;
        }
      } else {
        bcount := bcount + fs.limit;
        TopHole(todo, c2 + c3, done, base, 1);
      }
      abort, error := BlockIterateRest(ptrs, todo, c2, c3, error);
    }

    /** The double and triple indirect pointers. */
    method BlockIterateRest(ptrs: seq<nat>, ghost todo: seq<Call>, ghost c2: seq<Call>, ghost c3: seq<Call>, failed: bool)
      returns (abort: bool, error: bool)
      requires WellFormed(fs) && |ptrs| == NDIR_BLOCKS + 3
      requires failed ==> !InodeInRange(fs, ptrs)
      requires InodeInRange(fs, ptrs) ==> TopDid(todo, c2 + c3, NDIR_BLOCKS + Span(fs.limit, 1), false)
      requires c2 == CallsAt(fs, 2, ptrs[NDIR_BLOCKS + 1], NDIR_BLOCKS + Span(fs.limit, 1))
      requires c3 == CallsAt(fs, 3, ptrs[NDIR_BLOCKS + 2], NDIR_BLOCKS + Span(fs.limit, 1) + Span(fs.limit, 2))
      modifies this
      ensures error ==> !InodeInRange(fs, ptrs)
      ensures InodeInRange(fs, ptrs) ==> Made(func, [], todo, calls, abort)
    {
      hide Until, Aborts, Remains, Made, CallsFrom, CallsAt, Span, Did, InRange, RestSpan;
      var n := NDIR_BLOCKS;
      ghost var ok := InodeInRange(fs, ptrs);
      SpanIs(fs, 1, 0);
      abort, error := false, failed;
      ghost var done, base := calls, bcount;
      var e;
      if ptrs[n + 1] != 0 {
        abort, e := IterateDind(ptrs[n + 1]);
        if ok { TopStep(todo, c3, done, base, 2, ptrs[n + 1], abort, e); }
        DidNoError(done, base, 2, ptrs[n + 1], abort, e);
        error := error || e;
        if abort {
          return;
        }
      } else {
        bcount := bcount + fs.limit * fs.limit;
        if ok { TopHole(todo, c3, done, base, 2); }
      }
      assert c3 + [] == c3;
      done, base := calls, bcount;
      if ptrs[n + 2] != 0 {
        abort, e := IterateTind(ptrs[n + 2]);
        if ok { TopStep(todo, [], done, base, 3, ptrs[n + 2], abort, e); }
        DidNoError(done, base, 3, ptrs[n + 2], abort, e);
        error := error || e;
      } else if ok {
        LastHole(fs, func, todo, calls, base);
      }
      if ok && !abort { RemainsNone(func, [], todo, calls); }
    }

    lemma DidNoError(done: seq<Call>, base: nat, level: nat, b: nat, abort: bool, error: bool)
      requires Did(done, base, level, b, abort, error)
      ensures error ==> !InRange(fs, level, b)
    {
    }

    lemma DidAbort(done: seq<Call>, base: nat, level: nat, b: nat)
      requires Made(func, done, CallsAt(fs, level, b, base), calls, true)
      ensures Did(done, base, level, b, true, false)
    {
    }

    lemma DidError(done: seq<Call>, base: nat, level: nat, b: nat, abort: bool)
      requires b != 0 && level > 0 && !(fs.first <= b < fs.blocks)
      ensures Did(done, base, level, b, abort, true)
    {
    }

    lemma DidAll(done: seq<Call>, base: nat, level: nat, b: nat, abort: bool, error: bool)
      requires error ==> !InRange(fs, level, b)
      requires InRange(fs, level, b) ==>
                 && Made(func, done, CallsAt(fs, level, b, base), calls, abort)
                 && (!abort ==> bcount == base + Span(fs.limit, level))
      ensures Did(done, base, level, b, abort, error)
    {
    }

    /** What was done for a pointer in an indirect block. */
    lemma DidInside(done: seq<Call>, base: nat, level: nat, b: nat, i: nat, abort: bool, error: bool)
      requires b != 0 && level > 0 && i < |fs.read(b)|
      requires Did(done, base, level - 1, fs.read(b)[i], abort, error)
      ensures error ==> !InRange(fs, level, b)
      ensures InRange(fs, level, b) ==>
                && Made(func, done, CallsAt(fs, level - 1, fs.read(b)[i], base), calls, abort)
                && (!abort ==> bcount == base + Span(fs.limit, level - 1))
    {
    }
  }

  lemma InodeParts(fs: Fs, func: Callback, ptrs: seq<nat>)
    requires |ptrs| == NDIR_BLOCKS + 3
    ensures var n, s1, s2 := NDIR_BLOCKS, Span(fs.limit, 1), Span(fs.limit, 2);
            Remains(func, [], InodeCalls(fs, ptrs), [],
                    CallsFrom(fs, 1, ptrs[..n], 0, 0)
                    + (CallsAt(fs, 1, ptrs[n], n) + (CallsAt(fs, 2, ptrs[n + 1], n + s1) + CallsAt(fs, 3, ptrs[n + 2], n + s1 + s2))))
  {
    hide Until, Aborts, CallsAt, CallsFrom, Span;
    var n, s1, s2 := NDIR_BLOCKS, Span(fs.limit, 1), Span(fs.limit, 2);
    var c0, c1, c2, c3 := CallsFrom(fs, 1, ptrs[..n], 0, 0), CallsAt(fs, 1, ptrs[n], n), CallsAt(fs, 2, ptrs[n + 1], n + s1), CallsAt(fs, 3, ptrs[n + 2], n + s1 + s2);
    assert c0 + c1 + c2 + c3 == c0 + (c1 + (c2 + c3));
  }

  lemma LastHole(fs: Fs, func: Callback, todo: seq<Call>, c: seq<Call>, base: nat)
    requires Remains(func, [], todo, c, CallsAt(fs, 3, 0, base))
    ensures Remains(func, [], todo, c, [])
  {
  }

  lemma SpanIs(fs: Fs, level: nat, b: nat)
    requires WellFormed(fs) && level > 0
    ensures Span(fs.limit, 1) == fs.limit && Span(fs.limit, 2) == fs.limit * fs.limit
    ensures RestSpan(fs.limit, level, fs.limit, 0) == Span(fs.limit, level)
    ensures RestSpan(fs.limit, level, fs.limit, fs.limit) == 0
  {
    assert Span(fs.limit, 1) == fs.limit * Span(fs.limit, 0);
    assert Span(fs.limit, 2) == fs.limit * Span(fs.limit, 1);
    SpanRest(fs.limit, level, 0);
  }

  lemma RestNext(limit: nat, level: nat, i: nat)
    requires level > 0 && i < limit
    ensures RestSpan(limit, level, limit, i) == Span(limit, level - 1) + RestSpan(limit, level, limit, i + 1)
  {
  }

  lemma MadeHole(fs: Fs, func: Callback, level: nat, c: seq<Call>, base: nat)
    ensures Made(func, c, CallsAt(fs, level, 0, base), c, false)
  {
  }

  /** The parts of what is to be done for an indirect block. */
  lemma Parts(fs: Fs, func: Callback, level: nat, b: nat, done: seq<Call>, base: nat)
    requires b != 0 && level > 0
    ensures Remains(func, done, CallsAt(fs, level, b, base), done,
                    ReportBefore(fs, level, b) + (CallsFrom(fs, level, fs.read(b), 0, base) + ReportAfter(fs, level, b)))
  {
    var x, y, z := ReportBefore(fs, level, b), CallsFrom(fs, level, fs.read(b), 0, base), ReportAfter(fs, level, b);
    assert x + y + z == x + (y + z);
  }

  /** The calls of one pointer are made. */
  lemma NextPart(fs: Fs, func: Callback, level: nat, ptrs: seq<nat>, i: nat, base: nat, post: seq<Call>,
                 done: seq<Call>, todo: seq<Call>, c: seq<Call>, c': seq<Call>, abort: bool)
    requires level > 0 && i < |ptrs|
    requires Remains(func, done, todo, c, CallsFrom(fs, level, ptrs, i, base) + post)
    requires Made(func, c, CallsAt(fs, level - 1, ptrs[i], base), c', abort)
    ensures if abort then Made(func, done, todo, c', true)
            else Remains(func, done, todo, c', CallsFrom(fs, level, ptrs, i + 1, base + Span(fs.limit, level - 1)) + post)
    ensures Span(fs.limit, 0) == 1
  {
    hide Until, Aborts, Remains, Made;
    var x, y := CallsAt(fs, level - 1, ptrs[i], base), CallsFrom(fs, level, ptrs, i + 1, base + Span(fs.limit, level - 1));
    assert CallsFrom(fs, level, ptrs, i, base) == x + y;
    assert x + y + post == x + (y + post);
    RemainsStep(func, done, todo, c, x, y + post, c', abort);
  }

  /** All pointers are done. */
  lemma LastPart(fs: Fs, func: Callback, level: nat, ptrs: seq<nat>, base: nat, post: seq<Call>,
                 done: seq<Call>, todo: seq<Call>, c: seq<Call>)
    requires level > 0
    requires Remains(func, done, todo, c, CallsFrom(fs, level, ptrs, |ptrs|, base) + post)
    ensures Remains(func, done, todo, c, post)
    ensures Span(fs.limit, 1) == fs.limit && Span(fs.limit, 2) == fs.limit * fs.limit
  {
    assert CallsFrom(fs, level, ptrs, |ptrs|, base) + post == post;
    assert Span(fs.limit, 1) == fs.limit * Span(fs.limit, 0);
    assert Span(fs.limit, 2) == fs.limit * Span(fs.limit, 1);
  }

  lemma Closing(func: Callback, done: seq<Call>, todo: seq<Call>, c: seq<Call>, post: seq<Call>, c': seq<Call>, abort: bool)
    requires Remains(func, done, todo, c, post) && Made(func, c, post, c', abort)
    ensures Made(func, done, todo, c', abort)
  {
  }
}
