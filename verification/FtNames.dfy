/** What the three regions of a blob mean together: a flattened tree whose properties have names,
  * and nodes in it.
  */
module FtNames {
  import opened Bits
  import opened FtBlob
  import opened FtLayout
  import opened FtTokens
  import T = FtTree

  /** The string at position `i`. */
  function NameAt(strings: seq<byte>, i: int): seq<byte> {
    if 0 <= i <= |strings| then strings[i..i + StrLen(strings[i..])] else []
  }

  /** There is a string at position `i`, and it ends. */
  predicate HasName(strings: seq<byte>, i: int) {
    0 <= i < |strings| && i + StrLen(strings[i..]) < |strings|
  }

  /** String offsets are 32-bit numbers, with a sign. */
  function Signed(off: nat): int {
    if off < 0x8000_0000 then off else off - 0x1_0000_0000
  }

  function Unsigned(off: int): (r: nat)
    ensures r < 0x1_0000_0000
    ensures -0x8000_0000 <= off < 0x8000_0000 ==> Signed(r) == off
  {
    off % 0x1_0000_0000
  }

  function ItemOf(strings: seq<byte>, anchor: int, t: Token): T.Item {
    match t
    case Begin(name) => T.Open(name)
    case Prop(off, data) => T.Prop(T.Property(NameAt(strings, anchor + Signed(off)), data))
    case EndNode => T.Close
    case Nop => T.Skip
  }

  /** In a tree whose anchor is at its strings, a property's name is what is at its offset up to the first zero. */
  lemma NameIs(strings: seq<byte>, off: nat, data: seq<byte>, name: seq<byte>)
    requires off + |name| < |strings| && off < 0x8000_0000
    requires strings[off..off + |name|] == name && 0 !in name && strings[off + |name|] == 0
    ensures ItemOf(strings, 0, Prop(off, data)) == T.Prop(T.Property(name, data)) && HasName(strings, off)
  {
    forall i | 0 <= i < |name| ensures strings[off..][i] != 0 {
      assert strings[off + i] == name[i] && name[i] in name;
    }
    StrLenIs(strings[off..], |name|);
  }

  /** The tokens with names for string offsets. */
  function Items(strings: seq<byte>, anchor: int, ts: seq<Token>): (xs: seq<T.Item>)
    ensures |xs| == |ts|
    ensures forall i :: 0 <= i < |ts| ==> xs[i] == ItemOf(strings, anchor, ts[i])
  {
    seq(|ts|, i requires 0 <= i < |ts| => ItemOf(strings, anchor, ts[i]))
  }

  ghost predicate Named(strings: seq<byte>, anchor: int, ts: seq<Token>) {
    forall i :: 0 <= i < |ts| && ts[i].Prop? ==> HasName(strings, anchor + Signed(ts[i].off))
  }

  const MAX_STRINGS: nat := 0x4000_0000

  /** The strings all end. */
  predicate Terminated(strings: seq<byte>) {
    |strings| == 0 || strings[|strings| - 1] == 0
  }

  /** The structure holds the tokens `ts` up to the end tag, and all properties have names. */
  ghost predicate Represents(v: View, ts: seq<Token>) {
    && Reads(v.structs, ts, Bytes(OF_DT_END))
    && Named(v.strings, v.anchor, ts)
    && Terminated(v.strings) && |v.strings| < MAX_STRINGS && -0x2000_0000 < v.anchor < 0x2000_0000
  }

  ghost function TheItems(v: View, ts: seq<Token>): seq<T.Item> {
    Items(v.strings, v.anchor, ts)
  }

  // ----- Nodes

  /** The number of nodes that start among some tokens. */
  function Begins(ts: seq<Token>): nat {
    if |ts| == 0 then 0 else Begins(ts[..|ts| - 1]) + if ts[|ts| - 1].Begin? then 1 else 0
  }

  /** At position `off` of the structure node number `m` starts. */
  ghost predicate IsNode(ts: seq<Token>, off: int, m: nat) {
    exists j :: 0 <= j < |ts| && ts[j].Begin? && Size(ts[..j]) == off && Begins(ts[..j]) == m
  }

  lemma {:induction false} BeginsConcat(a: seq<Token>, b: seq<Token>)
    ensures Begins(a + b) == Begins(a) + Begins(b)
  {
    if |b| == 0 {
      assert a + b == a;
    } else {
      assert (a + b)[..|a + b| - 1] == a + b[..|b| - 1];
      BeginsConcat(a, b[..|b| - 1]);
    }
  }

  lemma SizeAt(ts: seq<Token>, i: nat, j: nat)
    requires i <= j <= |ts|
    ensures Size(ts[..j]) == Size(ts[..i]) + Size(ts[i..j])
    ensures i < j ==> Size(ts[..i]) + Length(ts[i]) <= Size(ts[..j])
  {
    assert ts[..j] == ts[..i] + ts[i..j];
    SizeConcat(ts[..i], ts[i..j]);
    if i < j { assert ts[i..j][0] == ts[i]; }
  }

  /** Distinct tokens are at distinct positions. */
  lemma SizeInjective(ts: seq<Token>, i: nat, j: nat)
    requires i <= |ts| && j <= |ts| && Size(ts[..i]) == Size(ts[..j])
    ensures i == j
  {
    if i < j { SizeAt(ts, i, j); } else if j < i { SizeAt(ts, j, i); }
  }

  /** When some tokens `olds` between `a` and `b` are replaced by others, which take `n` bytes more,
    * and everything from position `at` on moves, then nodes stay what they were.  Their numbers
    * change by those of the nodes among `news`. */
  lemma NodeSurvives(a: seq<Token>, olds: seq<Token>, news: seq<Token>, b: seq<Token>, at: nat, n: int, off: int, m: nat)
    requires Size(news) == Size(olds) + n
    requires forall t :: t in olds ==> !t.Begin?
    requires Size(a) <= at <= Size(a) + Size(olds)
    requires IsNode(a + olds + b, off, m)
    ensures IsNode(a + news + b, if off >= at then off + n else off, if m >= Begins(a) then m + Begins(news) else m)
  {
    hide Size, Begins, IsNode;
    var j := NodeElim(a + olds + b, off, m);
    if j < |a| {
      NodeBefore(a, olds, news, b, j);
    } else if j < |a| + |olds| {
      InMiddle(a, olds, b, j);
    } else {
      var k := j - |a| - |olds|;
      InTail(a + olds, b, k);
      NodeAfter(a, olds, news, b, k);
    }
  }

  lemma NodeElim(ts: seq<Token>, off: int, m: nat) returns (j: nat)
    requires IsNode(ts, off, m)
    ensures j < |ts| && ts[j].Begin? && Size(ts[..j]) == off && Begins(ts[..j]) == m
  {
    hide Size, Begins;
    j :| 0 <= j < |ts| && ts[j].Begin? && Size(ts[..j]) == off && Begins(ts[..j]) == m;
  }

  lemma InMiddle(a: seq<Token>, olds: seq<Token>, b: seq<Token>, j: nat)
    requires |a| <= j < |a| + |olds|
    ensures (a + olds + b)[j] in olds
  {
    assert (a + olds + b)[j] == olds[j - |a|];
  }

  lemma InTail(x: seq<Token>, b: seq<Token>, k: nat)
    requires k < |b|
    ensures (x + b)[|x| + k] == b[k] && (x + b)[..|x| + k] == x + b[..k]
  {
  }

  lemma NodeBefore(a: seq<Token>, olds: seq<Token>, news: seq<Token>, b: seq<Token>, j: nat)
    requires j < |a| && a[j].Begin?
    ensures Size((a + olds + b)[..j]) < Size(a) && Begins((a + olds + b)[..j]) < Begins(a)
    ensures IsNode(a + news + b, Size((a + olds + b)[..j]), Begins((a + olds + b)[..j]))
  {
    hide Size, Begins;
    var ts, ts' := a + olds + b, a + news + b;
    assert ts[..j] == a[..j] == ts'[..j];
    SizeAt(a, j, |a|);
    BeginsAt(a, j, |a|);
    assert a[..|a|] == a;
    assert ts'[j] == a[j];
  }

  lemma {:induction false} BeginsAt(ts: seq<Token>, i: nat, j: nat)
    requires i <= j <= |ts|
    ensures Begins(ts[..i]) <= Begins(ts[..j])
    ensures i < j && ts[i].Begin? ==> Begins(ts[..i]) < Begins(ts[..j])
    decreases j
  {
    if i < j {
      BeginsAt(ts, i, j - 1);
      assert ts[..j][..j - 1] == ts[..j - 1] && ts[..j][j - 1] == ts[j - 1];
    }
  }

  /** A node after some tokens. */
  lemma NodeIntro(x: seq<Token>, t: Token, rest: seq<Token>)
    requires t.Begin?
    ensures IsNode(x + [t] + rest, Size(x), Begins(x))
  {
    hide Size, Begins;
    var ts := x + [t] + rest;
    assert ts[..|x|] == x && ts[|x|] == t;
  }

  lemma TakeApart(x: seq<Token>, b: seq<Token>, k: nat)
    requires k < |b|
    ensures x + b == x + b[..k] + [b[k]] + b[k + 1..]
    ensures (x + b)[..|x| + k] == x + b[..k]
  {
  }

  lemma NodeAfter(a: seq<Token>, olds: seq<Token>, news: seq<Token>, b: seq<Token>, k: nat)
    requires k < |b| && b[k].Begin? && forall t :: t in olds ==> !t.Begin?
    ensures var off, m := Size(a + olds + b[..k]), Begins(a + olds + b[..k]);
            && off >= Size(a) + Size(olds) && m >= Begins(a)
            && IsNode(a + news + b, off + Size(news) - Size(olds), m + Begins(news))
  {
    hide Size, Begins, IsNode;
    TakeApart(a + news, b, k);
    ThreeParts(a, olds, b[..k]);
    ThreeParts(a, news, b[..k]);
    NoBegins(olds);
    NodeIntro(a + news + b[..k], b[k], b[k + 1..]);
  }

  lemma ThreeParts(a: seq<Token>, b: seq<Token>, c: seq<Token>)
    ensures Size(a + b + c) == Size(a) + Size(b) + Size(c) && Begins(a + b + c) == Begins(a) + Begins(b) + Begins(c)
  {
    SizeConcat(a, b);
    SizeConcat(a + b, c);
    BeginsConcat(a, b);
    BeginsConcat(a + b, c);
  }

  lemma {:induction false} NoBegins(ts: seq<Token>)
    requires forall t :: t in ts ==> !t.Begin?
    ensures Begins(ts) == 0
  {
    if |ts| > 0 { NoBegins(ts[..|ts| - 1]); }
  }

  // ----- Strings

  /** Strings added before the others do not change what those are. */
  lemma NameShift(more: seq<byte>, strings: seq<byte>, i: int)
    requires HasName(strings, i)
    ensures HasName(more + strings, |more| + i) && NameAt(more + strings, |more| + i) == NameAt(strings, i)
  {
    assert (more + strings)[|more| + i..] == strings[i..];
    var n := StrLen(strings[i..]);
    assert (more + strings)[|more| + i..|more| + i + n] == strings[i..i + n];
  }

  /** A string put before the others. */
  lemma NameFirst(name: seq<byte>, strings: seq<byte>)
    requires forall i :: 0 <= i < |name| ==> name[i] != 0
    ensures HasName(name + [0] + strings, 0) && NameAt(name + [0] + strings, 0) == name
  {
    var s := name + [0] + strings;
    assert s[0..] == s;
    StrLenIs(s, |name|);
    assert s[0..|name|] == name;
  }

  lemma ItemsShift(more: seq<byte>, strings: seq<byte>, anchor: int, ts: seq<Token>)
    requires Named(strings, anchor, ts)
    ensures Named(more + strings, anchor + |more|, ts)
    ensures Items(more + strings, anchor + |more|, ts) == Items(strings, anchor, ts)
  {
    hide HasName, NameAt;
    forall i | 0 <= i < |ts|
      ensures ts[i].Prop? ==> HasName(more + strings, anchor + |more| + Signed(ts[i].off))
      ensures ItemOf(more + strings, anchor + |more|, ts[i]) == ItemOf(strings, anchor, ts[i])
    {
      if ts[i].Prop? {
        NameShift(more, strings, anchor + Signed(ts[i].off));
        assert |more| + (anchor + Signed(ts[i].off)) == anchor + |more| + Signed(ts[i].off);
      }
    }
  }

  /** A new name is added before the other strings: the tree stays what it was. */
  lemma NameAdded(v: View, w: View, ts: seq<Token>, name: seq<byte>)
    requires Represents(v, ts) && |name| < 0x1000_0000 && |v.strings| + |name| + 1 < MAX_STRINGS
    requires v.anchor + |name| + 1 < 0x2000_0000
    requires forall i :: 0 <= i < |name| ==> name[i] != 0
    requires w.structs == v.structs && w.strings == name + [0] + v.strings && w.anchor == v.anchor + |name| + 1
    ensures Represents(w, ts) && TheItems(w, ts) == TheItems(v, ts)
    ensures HasName(w.strings, 0) && NameAt(w.strings, 0) == name
  {
    hide Reads, Named;
    NameFirst(name, v.strings);
    ItemsShift(name + [0], v.strings, v.anchor, ts);
  }

  // ----- Splicing

  lemma ItemsConcat(strings: seq<byte>, anchor: int, a: seq<Token>, b: seq<Token>)
    ensures Items(strings, anchor, a + b) == Items(strings, anchor, a) + Items(strings, anchor, b)
    ensures Named(strings, anchor, a + b) <==> Named(strings, anchor, a) && Named(strings, anchor, b)
  {
    hide HasName, ItemOf, Signed;
    var ts := a + b;
    var xs, ys, zs := Items(strings, anchor, a), Items(strings, anchor, b), Items(strings, anchor, ts);
    forall i | 0 <= i < |ts| ensures zs[i] == (xs + ys)[i] {
      if i < |a| { assert ts[i] == a[i]; } else { assert ts[i] == b[i - |a|]; }
    }
    NamedConcat(strings, anchor, a, b);
  }

  lemma NamedConcat(strings: seq<byte>, anchor: int, a: seq<Token>, b: seq<Token>)
    ensures Named(strings, anchor, a + b) <==> Named(strings, anchor, a) && Named(strings, anchor, b)
  {
    hide HasName, Signed;
    var ts := a + b;
    if Named(strings, anchor, ts) {
      assert forall i :: 0 <= i < |a| ==> a[i] == ts[i];
      assert forall i :: 0 <= i < |b| ==> b[i] == ts[|a| + i];
    }
  }

  /** Some tokens of the structure are replaced by others. */
  lemma Spliced(v: View, w: View, a: seq<Token>, olds: seq<Token>, news: seq<Token>, code: seq<byte>, b: seq<Token>)
    requires Represents(v, a + olds + b) && Named(v.strings, v.anchor, news)
    requires forall x :: Reads(code + x, news, x)
    requires w.strings == v.strings && w.anchor == v.anchor
    requires Size(a) <= Size(a + olds) <= |v.structs|
    requires w.structs == v.structs[..Size(a)] + code + v.structs[Size(a + olds)..]
    ensures Represents(w, a + news + b)
    ensures TheItems(v, a + olds + b) == TheItems(v, a) + TheItems(v, olds) + TheItems(v, b)
    ensures TheItems(w, a + news + b) == TheItems(v, a) + TheItems(v, news) + TheItems(v, b)
  {
    hide Reads, Named, Size, Items;
    ReadsSplice(v.structs, a, olds, news, code, b, Bytes(OF_DT_END));
    ItemsConcat(v.strings, v.anchor, a, olds);
    ItemsConcat(v.strings, v.anchor, a + olds, b);
    ItemsConcat(v.strings, v.anchor, a, news);
    ItemsConcat(v.strings, v.anchor, a + news, b);
  }
}
