/** Reading blocks through the ReiserFS journal. */
module ReiserJournal {
  import opened ReiserLog

  class Journal {
    const log: Log
    const journalBlock: nat

    /** The journal cache, JOURNAL_START to JOURNAL_END. */
    const table: array<nat>

    var transactions: nat
    var firstDesc: nat

    /** The transactions the log holds. */
    ghost var ts: seq<Transaction>

    ghost predicate Valid()
      reads this, table
    {
      && table.Length > 0 && transactions == |ts|
      && Holds(log, firstDesc, ts)
      && table[..|Cached(ts, 0, table.Length)|] == Cached(ts, 0, table.Length)
    }

    constructor (log: Log, journalBlock: nat, cacheSize: nat)
      requires log.count > 0 && cacheSize > 0
      ensures this.log == log && this.journalBlock == journalBlock && table.Length == cacheSize
      ensures fresh(table)
    {
      this.log, this.journalBlock := log, journalBlock;
      table := new nat[cacheSize](_ => 0);
      transactions, firstDesc, ts := 0, 0, [];
    }

    /** Copy the block numbers of a transaction into the table. */
    method Store(pos: nat, start: nat, ghost tr: Transaction)
      requires log.count > 0 && Describes(log, start, tr)
      requires pos + 1 + |tr| <= table.Length
      modifies table
      ensures table[pos..pos + 1 + |tr|] == [|tr|] + tr
      ensures table[..pos] == old(table[..pos])
    {
      var desc := log.desc(start);
      var commit := log.commit(Wrap(start + 1 + desc.len, log.count));
      table[pos] := desc.len;
      var i := 0;
      while i < desc.len && i < TRANS_HALF
        invariant 0 <= i <= desc.len && i <= TRANS_HALF
        invariant table[pos] == desc.len && table[..pos] == old(table[..pos])
        invariant forall k :: 0 <= k < i ==> table[pos + 1 + k] == tr[k]
      {
        table[pos + 1 + i] := desc.realBlock[i];
        i := i + 1;
      }
      while i < desc.len
        invariant 0 <= i <= desc.len && (i < desc.len ==> TRANS_HALF <= i)
        invariant table[pos] == desc.len && table[..pos] == old(table[..pos])
        invariant forall k :: 0 <= k < i ==> table[pos + 1 + k] == tr[k]
      {
        table[pos + 1 + i] := commit.realBlock[i - TRANS_HALF];
        i := i + 1;
      }
    }

    /** The transactions before number `t` are in the table, up to word `pos`. */
    ghost predicate Filled(pos: nat, t: nat)
      reads this, table
    {
      FilledIn(ts, t, table[..], pos)
    }

    /** Cache one more transaction if it fits; else set the end mark. */
    method CacheOne(pos: nat, start: nat, ghost t: nat) returns (pos': nat)
      requires Filled(pos, t) && t < |ts| && log.count > 0 && Describes(log, start, ts[t])
      modifies table
      ensures Filled(pos', t + 1)
    {
      hide Cached, Wrap, FilledIn, Describes;
      DescribesLen(log, start, ts[t]);
      ghost var was := table[..];
      pos' := pos;
      if pos < table.Length {
        var len := log.desc(start).len;
        if pos + 1 + len >= table.Length {
          // no room for this one and the end mark after it
          table[pos] := END_OF_CACHE;
          MarkFills(ts, t, was, pos);
          assert table[..] == was[pos := END_OF_CACHE];
          pos' := table.Length;
        } else {
          Store(pos, start, ts[t]);
          pos' := pos + 1 + len;
          assert table[..][pos..pos'] == table[pos..pos'] && table[..][..pos] == table[..pos] == was[..pos];
          StoreFills(ts, t, was, table[..], pos);
        }
      } else {
        FullStays(ts, t, was, pos);
      }
    }

    /** Go through the `n` transactions and keep as many in the table as it holds. */
    method Init(first: nat, n: nat, ghost trs: seq<Transaction>)
      requires table.Length > 0 && n == |trs| && Holds(log, first, trs)
      modifies this, table
      ensures Valid() && ts == trs && firstDesc == first
    {
      hide Describes, Filled, Cached, Wrap, Start;
      StartFirst(log, first, trs);
      firstDesc, transactions, ts := first, n, trs;
      var desc := first;
      // the next word of the table; its end once the end mark is set
      var pos: nat := 0;
      var t := 0;
      FilledStart();
      while t < n
        invariant 0 <= t <= n && desc == Start(trs, first, log.count, t)
        invariant firstDesc == first && transactions == n && ts == trs
        invariant Filled(pos, t)
      {
        DescribesLen(log, desc, trs[t]);
        pos := CacheOne(pos, desc, t);
        StartNext(trs, first, log.count, t);
        desc := Wrap(desc + 2 + log.desc(desc).len, log.count);
        t := t + 1;
      }
      FilledEnd(pos);
    }

    lemma FilledStart()
      requires table.Length > 0
      ensures Filled(0, 0)
    {
    }

    lemma FilledEnd(pos: nat)
      requires Filled(pos, |ts|)
      ensures table.Length > 0 && table[..|Cached(ts, 0, table.Length)|] == Cached(ts, 0, table.Length)
    {
      FilledAll(ts, table[..], pos);
      assert table[..][..|Cached(ts, 0, table.Length)|] == table[..|Cached(ts, 0, table.Length)|];
    }
  
    /** From word `pos` on the table lists the transactions from number `t` on. */
    ghost predicate Ahead(pos: nat, t: nat)
      reads this, table
    {
      && t <= |ts| && pos <= table.Length
      && (t < |ts| ==>
            && pos < table.Length
            && (table[pos] == END_OF_CACHE
                || (var c := Cached(ts, t, table.Length - pos); pos + |c| <= table.Length && table[pos..pos + |c|] == c)))
    }

    lemma AheadStart()
      requires Valid()
      ensures Ahead(0, 0)
    {
      var c := Cached(ts, 0, table.Length);
      assert table[0..|c|] == table[..|c|];
    }

    static lemma SlicePart(s: seq<nat>, a: nat, b: nat, i: nat, j: nat)
      requires i <= j <= b - a && b <= |s|
      ensures s[a..b][i..j] == s[a + i..a + j]
      ensures j == b - a ==> s[a..b][i..] == s[a + i..b]
    {
      var p := s[a..b];
      forall k | 0 <= k < j - i ensures p[i..j][k] == s[a + i..a + j][k] {
        assert p[i..j][k] == p[i + k];
      }
      assert p[i..j] == s[a + i..a + j];
      if j == b - a { assert p[i..] == p[i..j]; }
    }

    /** A transaction that is in the table. */
    lemma AheadNext(pos: nat, t: nat)
      requires Ahead(pos, t) && t < |ts| && |ts[t]| < END_OF_CACHE
      ensures pos < table.Length
      ensures table[pos] == END_OF_CACHE ==> Ahead(pos, t + 1)
      ensures table[pos] != END_OF_CACHE ==>
                && table[pos] == |ts[t]| && pos + 1 + |ts[t]| <= table.Length
                && table[pos + 1..pos + 1 + |ts[t]|] == ts[t]
                && Ahead(pos + 1 + |ts[t]|, t + 1)
    {
      hide Cached;
      if table[pos] != END_OF_CACHE {
        var c, n := Cached(ts, t, table.Length - pos), 1 + |ts[t]|;
        CachedNext(ts, t, table.Length - pos);
        assert c[0] == table[pos];
        var rest := if n >= table.Length - pos then [] else Cached(ts, t + 1, table.Length - pos - n);
        Listed(table[..], pos, [|ts[t]|], ts[t], rest);
      }
    }

    /** What follows each other in the table. */
    static lemma Listed(s: seq<nat>, pos: nat, head: seq<nat>, tr: seq<nat>, rest: seq<nat>)
      requires |head| == 1 && pos + 1 + |tr| + |rest| <= |s| && s[pos..pos + 1 + |tr| + |rest|] == head + tr + rest
      ensures s[pos] == head[0] && s[pos + 1..pos + 1 + |tr|] == tr
      ensures s[pos + 1 + |tr|..pos + 1 + |tr| + |rest|] == rest
    {
      var n, c := 1 + |tr|, head + tr + rest;
      assert c[0] == head[0] && c[1..n] == tr && c[n..] == rest;
      SlicePart(s, pos, pos + |c|, 1, n);
      SlicePart(s, pos, pos + |c|, n, |c|);
    }

    /** Search for a block in the cached journal. */
    method SearchCached(pos: nat, blockNr: nat, ghost tr: Transaction) returns (found: bool, i: nat, len: nat, pos': nat)
      requires pos < table.Length && table[pos] == |tr| && pos + 1 + |tr| <= table.Length
      requires table[pos + 1..pos + 1 + |tr|] == tr
      ensures len == |tr| && pos' == pos + 1 + len
      ensures found <==> IndexOf(tr, blockNr) < |tr|
      ensures found ==> i == IndexOf(tr, blockNr) + 1
    {
      ghost var at := IndexOf(tr, blockNr);
      len := table[pos];
      pos' := pos + 1;
      i := 0;
      while i < len
        invariant 0 <= i <= len && pos' == pos + 1 + i
        invariant forall j :: 0 <= j < i ==> tr[j] != blockNr
      {
        i := i + 1;
        assert table[pos'] == table[pos + 1..pos + 1 + |tr|][i - 1];
        if table[pos'] == blockNr {
          pos' := pos' + 1;
          pos' := pos' + (len - i);
          return true, i, len, pos';
        }
        pos' := pos' + 1;
      }
      found := false;
    }

    /** Search for a block in a transaction that is still on disk only. */
    method SearchLogged(desc: nat, blockNr: nat, ghost tr: Transaction) returns (found: bool, i: nat, len: nat)
      requires log.count > 0 && Describes(log, desc, tr)
      ensures len == |tr|
      ensures found <==> IndexOf(tr, blockNr) < |tr|
      ensures found ==> i == IndexOf(tr, blockNr) + 1
    {
      ghost var at := IndexOf(tr, blockNr);
      var d := log.desc(desc);
      len := d.len;
      i := 0;
      while i < len && i < TRANS_HALF
        invariant 0 <= i <= len && i <= TRANS_HALF
        invariant forall j :: 0 <= j < i ==> tr[j] != blockNr
      {
        i := i + 1;
        if d.realBlock[i - 1] == blockNr {
          return true, i, len;
        }
      }
      if len >= TRANS_HALF {
        var c := log.commit(Wrap(desc + 1 + len, log.count));
        while i < len
          invariant TRANS_HALF <= i <= len
          invariant forall j :: 0 <= j < i ==> tr[j] != blockNr
        {
          i := i + 1;
          assert tr[i - 1] == c.realBlock[i - 1 - TRANS_HALF];
          if c.realBlock[i - 1 - TRANS_HALF] == blockNr {
            return true, i, len;
          }
        }
      }
      found := false;
    }

    /** Where to read a block from, taking the journal into account. */
    method BlockRead(blockNr: nat) returns (translatedNr: nat)
      requires Valid()
      ensures log.count > 0
      ensures translatedNr == Newest(ts, firstDesc, log.count, journalBlock, blockNr, |ts|)
    {
      hide Describes, Cached, Wrap, Start, Ahead, IndexOf;
      translatedNr := blockNr;
      var desc: nat, pos: nat := firstDesc, 0;
      StartFirst(log, firstDesc, ts);
      AheadStart();
      var t := 0;
      while t < transactions
        invariant 0 <= t <= transactions && Ahead(pos, t)
        invariant desc == Start(ts, firstDesc, log.count, t)
        invariant translatedNr == Newest(ts, firstDesc, log.count, journalBlock, blockNr, t)
      {
        DescribesLen(log, desc, ts[t]);
        AheadNext(pos, t);
        StartNext(ts, firstDesc, log.count, t);
        var found, i, len;
        if table[pos] != END_OF_CACHE {
          found, i, len, pos := SearchCached(pos, blockNr, ts[t]);
        } else {
          // transactions that the table has no room for
          found, i, len := SearchLogged(desc, blockNr, ts[t]);
        }
        // a later transaction decides
        if found {
          translatedNr := journalBlock + Wrap(desc + i, log.count);
        }
        desc := Wrap(desc + 2 + len, log.count);
        t := t + 1;
      }
    }
  }

  /** The transactions before number `t` are in the table, up to word `pos`. */
  ghost predicate FilledIn(ts: seq<Transaction>, t: nat, tbl: seq<nat>, pos: nat) {
    && t <= |ts| && pos <= |tbl| && |tbl| > 0
    && var whole := Cached(ts, 0, |tbl|);
       if pos < |tbl| then tbl[..pos] + Cached(ts, t, |tbl| - pos) == whole
       else tbl[..|whole|] == whole
  }

  /** A transaction that fits is stored. */
  lemma StoreFills(ts: seq<Transaction>, t: nat, tbl: seq<nat>, tbl': seq<nat>, pos: nat)
    requires FilledIn(ts, t, tbl, pos) && t < |ts| && pos + 1 + |ts[t]| < |tbl| == |tbl'|
    requires tbl'[..pos] == tbl[..pos] && tbl'[pos..pos + 1 + |ts[t]|] == [|ts[t]|] + ts[t]
    ensures FilledIn(ts, t + 1, tbl', pos + 1 + |ts[t]|)
  {
    hide Cached;
    CachedNext(ts, t, |tbl| - pos);
    var n := pos + 1 + |ts[t]|;
    Cut(tbl', pos, n);
    Assoc(tbl[..pos], [|ts[t]|] + ts[t], Cached(ts, t + 1, |tbl| - n));
  }

  lemma Cut(s: seq<nat>, i: nat, j: nat)
    requires i <= j <= |s|
    ensures s[..j] == s[..i] + s[i..j]
  {
  }

  lemma Assoc(a: seq<nat>, b: seq<nat>, c: seq<nat>)
    ensures a + b + c == a + (b + c)
  {
  }

  /** The end mark is set for one that does not. */
  lemma MarkFills(ts: seq<Transaction>, t: nat, tbl: seq<nat>, pos: nat)
    requires FilledIn(ts, t, tbl, pos) && t < |ts| && pos < |tbl| <= pos + 1 + |ts[t]|
    ensures FilledIn(ts, t + 1, tbl[pos := END_OF_CACHE], |tbl|)
  {
    hide Cached;
    CachedNext(ts, t, |tbl| - pos);
    assert tbl[pos := END_OF_CACHE][..pos + 1] == tbl[..pos] + [END_OF_CACHE];
  }

  /** Once the table is full no more transactions go into it. */
  lemma FullStays(ts: seq<Transaction>, t: nat, tbl: seq<nat>, pos: nat)
    requires FilledIn(ts, t, tbl, pos) && t < |ts| && pos >= |tbl|
    ensures FilledIn(ts, t + 1, tbl, pos)
  {
  }

  lemma FilledAll(ts: seq<Transaction>, tbl: seq<nat>, pos: nat)
    requires FilledIn(ts, |ts|, tbl, pos)
    ensures |tbl| > 0 && |Cached(ts, 0, |tbl|)| <= |tbl| && tbl[..|Cached(ts, 0, |tbl|)|] == Cached(ts, 0, |tbl|)
  {
    if pos < |tbl| { assert tbl[..pos] + [] == tbl[..pos]; }
  }

  lemma StartFirst(log: Log, first: nat, ts: seq<Transaction>)
    requires Holds(log, first, ts)
    ensures log.count > 0 && Start(ts, first, log.count, 0) == first
  {
  }

  lemma CachedNext(ts: seq<Transaction>, t: nat, room: nat)
    requires t < |ts| && room > 0
    ensures Cached(ts, t, room) == if 1 + |ts[t]| >= room then [END_OF_CACHE]
                                   else [|ts[t]|] + ts[t] + Cached(ts, t + 1, room - 1 - |ts[t]|)
  {
  }

  lemma DescribesLen(log: Log, start: nat, tr: Transaction)
    requires log.count > 0 && Describes(log, start, tr)
    ensures log.desc(start).len == |tr| <= 2 * TRANS_HALF
  {
  }
}
