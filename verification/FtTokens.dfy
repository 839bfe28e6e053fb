/** The structure block of a flattened device tree (section 5.4 of the Devicetree Specification) as
  * a sequence of tokens.
  */
module FtTokens {
  import opened Bits
  import opened FtBlob

  const OF_DT_BEGIN_NODE: nat := 1
  const OF_DT_END_NODE: nat := 2
  const OF_DT_PROP: nat := 3
  const OF_DT_NOP: nat := 4
  const OF_DT_END: nat := 9

  /** A property's name is an offset into the strings. */
  datatype Token = Begin(name: seq<byte>) | Prop(off: nat, data: seq<byte>) | EndNode | Nop

  datatype Atom = Token(token: Token, len: nat) | Stop | Bad

  /** The length of the string at the start of `s`, or all of `s` if it does not end. */
  function StrLen(s: seq<byte>): (n: nat)
    ensures n <= |s|
    ensures forall i :: 0 <= i < n ==> s[i] != 0
    ensures n < |s| ==> s[n] == 0
  {
    if |s| == 0 || s[0] == 0 then 0 else 1 + StrLen(s[1..])
  }

  lemma StrLenIs(s: seq<byte>, n: nat)
    requires n < |s| && s[n] == 0 && forall i :: 0 <= i < n ==> s[i] != 0
    ensures StrLen(s) == n
  {
    if StrLen(s) < n { assert s[StrLen(s)] == 0; }
  }

  /** The bytes a token takes. */
  function Length(t: Token): (n: nat)
    ensures n >= 4
  {
    match t
    case Begin(name) => 4 + Align4(|name| + 1)
    case Prop(_, data) => 12 + Align4(|data|)
    case _ => 4
  }

  /** The token at the start of `s`. */
  function Next(s: seq<byte>): (a: Atom)
    ensures a.Token? ==> a.len == Length(a.token) <= |s|
  {
    if |s| < 4 then Bad
    else
      var tag := Word(s[..4]);
      if tag == OF_DT_BEGIN_NODE then
        var n := StrLen(s[4..]);
        if 4 + n < |s| && 4 + Align4(n + 1) <= |s| then Token(Begin(s[4..4 + n]), 4 + Align4(n + 1)) else Bad
      else if tag == OF_DT_PROP then
        if |s| < 12 then Bad
        else
          var size := Word(s[4..8]);
          if 12 + Align4(size) <= |s| then Token(Prop(Word(s[8..12]), s[12..12 + size]), 12 + Align4(size)) else Bad
      else if tag == OF_DT_END_NODE then Token(EndNode, 4)
      else if tag == OF_DT_NOP then Token(Nop, 4)
      else Stop
  }

  /** What follows a token does not matter. */
  lemma NextLocal(s: seq<byte>, x: seq<byte>)
    requires Next(s).Token?
    ensures Next(s[..Next(s).len] + x) == Next(s)
  {
    var n := Next(s).len;
    var u := s[..n] + x;
    assert u[..4] == s[..4];
    match Next(s).token {
      case Begin(name) =>
        StrLenIs(u[4..], |name|);
        assert u[4..4 + |name|] == s[4..4 + |name|];
      case Prop(_, data) =>
        assert u[4..8] == s[4..8] && u[8..12] == s[8..12];
        assert u[12..12 + |data|] == s[12..12 + |data|];
      case _ =>
    }
  }

  function Padding(n: nat): seq<byte> {
    seq(n, _ => 0)
  }

  /** A token can be written: names have no NUL, numbers fit into words. */
  predicate Writable(t: Token) {
    match t
    case Begin(name) => forall i :: 0 <= i < |name| ==> name[i] != 0
    case Prop(off, data) => off < 0x1_0000_0000 && |data| < 0x8000_0000
    case _ => true
  }

  function Encode(t: Token): (b: seq<byte>)
    requires Writable(t)
    ensures |b| == Length(t)
  {
    match t
    case Begin(name) => Bytes(OF_DT_BEGIN_NODE) + name + Padding(Align4(|name| + 1) - |name|)
    case Prop(off, data) =>
      Bytes(OF_DT_PROP) + Bytes(|data|) + Bytes(off) + data + Padding(Align4(|data|) - |data|)
    case EndNode => Bytes(OF_DT_END_NODE)
    case Nop => Bytes(OF_DT_NOP)
  }

  /** Tokens byte by byte: a tag of four bytes; for a node its name and for a property the size of its value, the
    * offset of its name and the value, filled up with zeros to a multiple of four bytes. */
  lemma TokenBytes(t: Token)
    requires Writable(t)
    ensures |Encode(t)| % 4 == 0
    ensures match t
            case Begin(name) =>
              && |name| + 4 < |Encode(t)| <= |name| + 8
              && Encode(t)[..4] == [0, 0, 0, 1] && Encode(t)[4..4 + |name|] == name
              && forall i :: 4 + |name| <= i < |Encode(t)| ==> Encode(t)[i] == 0
            case Prop(off, data) =>
              && |data| + 12 <= |Encode(t)| < |data| + 16
              && Encode(t)[..4] == [0, 0, 0, 3] && Word(Encode(t)[4..8]) == |data| && Word(Encode(t)[8..12]) == off
              && Encode(t)[12..12 + |data|] == data
              && forall i :: 12 + |data| <= i < |Encode(t)| ==> Encode(t)[i] == 0
            case EndNode => Encode(t) == [0, 0, 0, 2]
            case Nop => Encode(t) == [0, 0, 0, 4]
  {
    hide Word, Bytes;
    BytesAre(1);
    BytesAre(2);
    BytesAre(3);
    BytesAre(4);
    match t {
      case Begin(name) => assert Encode(t)[4..4 + |name|] == name;
      case Prop(off, data) =>
        assert Encode(t)[4..8] == Bytes(|data|) && Encode(t)[8..12] == Bytes(off) && Encode(t)[12..12 + |data|] == data;
      case _ =>
    }
  }

  /** A token that was written is read back. */
  lemma EncodeNext(t: Token, x: seq<byte>)
    requires Writable(t)
    ensures Next(Encode(t) + x) == Token(t, Length(t))
  {
    hide Bytes, Word;
    var u := Encode(t) + x;
    match t {
      case Begin(name) =>
        assert u[..4] == Bytes(OF_DT_BEGIN_NODE);
        assert u[4..4 + |name|] == name;
        assert u[4..][|name|] == 0;
        StrLenIs(u[4..], |name|);
      case Prop(off, data) =>
        assert u[..4] == Bytes(OF_DT_PROP);
        assert u[4..8] == Bytes(|data|) && u[8..12] == Bytes(off);
        assert u[12..12 + |data|] == data;
      case EndNode => assert u[..4] == Bytes(OF_DT_END_NODE);
      case Nop => assert u[..4] == Bytes(OF_DT_NOP);
    }
  }

  // ----- Sequences of tokens

  /** The bytes some tokens take. */
  function Size(ts: seq<Token>): nat {
    if |ts| == 0 then 0 else Length(ts[0]) + Size(ts[1..])
  }

  lemma {:induction false} SizeConcat(a: seq<Token>, b: seq<Token>)
    ensures Size(a + b) == Size(a) + Size(b)
  {
    if |a| == 0 {
      assert a + b == b;
    } else {
      assert (a + b)[0] == a[0] && (a + b)[1..] == a[1..] + b;
      SizeConcat(a[1..], b);
    }
  }

  /** `s` starts with the tokens `ts`; `rest` follows. */
  ghost predicate Reads(s: seq<byte>, ts: seq<Token>, rest: seq<byte>)
    decreases |ts|
  {
    if |ts| == 0 then s == rest
    else Next(s) == Token(ts[0], Length(ts[0])) && Reads(s[Length(ts[0])..], ts[1..], rest)
  }

  lemma {:induction false} ReadsRest(s: seq<byte>, ts: seq<Token>, rest: seq<byte>)
    requires Reads(s, ts, rest)
    ensures |s| == Size(ts) + |rest| && s[Size(ts)..] == rest
    decreases |ts|
  {
    if |ts| > 0 {
      ReadsRest(s[Length(ts[0])..], ts[1..], rest);
      assert s[Length(ts[0])..][Size(ts[1..])..] == s[Size(ts)..];
    }
  }

  /** What follows some tokens can be replaced. */
  lemma {:induction false} ReadsReplace(s: seq<byte>, ts: seq<Token>, rest: seq<byte>, rest': seq<byte>)
    requires Reads(s, ts, rest)
    ensures Size(ts) <= |s| && Reads(s[..Size(ts)] + rest', ts, rest')
    decreases |ts|
  {
    hide Next, Length;
    ReadsRest(s, ts, rest);
    if |ts| == 0 {
      assert s[..0] + rest' == rest';
    } else {
      var n, m := Length(ts[0]), Size(ts[1..]);
      ReadsReplace(s[n..], ts[1..], rest, rest');
      var x := s[n..][..m] + rest';
      NextLocal(s, x);
      PrefixTail(s, n, m, rest');
    }
  }

  lemma PrefixTail(s: seq<byte>, n: nat, m: nat, x: seq<byte>)
    requires n + m <= |s|
    ensures s[..n + m] + x == s[..n] + (s[n..][..m] + x)
    ensures (s[..n] + (s[n..][..m] + x))[n..] == s[n..][..m] + x
  {
  }

  lemma {:induction false} ReadsConcat(s: seq<byte>, a: seq<Token>, m: seq<byte>, b: seq<Token>, rest: seq<byte>)
    requires Reads(s, a, m) && Reads(m, b, rest)
    ensures Reads(s, a + b, rest)
    decreases |a|
  {
    hide Next, Length;
    if |a| == 0 {
      assert a + b == b;
    } else {
      assert (a + b)[0] == a[0] && (a + b)[1..] == a[1..] + b;
      ReadsConcat(s[Length(a[0])..], a[1..], m, b, rest);
    }
  }

  lemma {:induction false} ReadsSplit(s: seq<byte>, a: seq<Token>, b: seq<Token>, rest: seq<byte>)
    requires Reads(s, a + b, rest)
    ensures Size(a) <= |s| && Reads(s, a, s[Size(a)..]) && Reads(s[Size(a)..], b, rest)
    decreases |a|
  {
    if |a| == 0 {
      assert a + b == b && s[0..] == s;
    } else {
      assert (a + b)[0] == a[0] && (a + b)[1..] == a[1..] + b;
      ReadsSplit(s[Length(a[0])..], a[1..], b, rest);
      assert s[Length(a[0])..][Size(a[1..])..] == s[Size(a)..];
    }
  }

  /** Putting other tokens between some tokens and the rest. */
  lemma ReadsSplice(s: seq<byte>, a: seq<Token>, olds: seq<Token>, news: seq<Token>, code: seq<byte>, b: seq<Token>, rest: seq<byte>)
    requires Reads(s, a + olds + b, rest)
    requires forall x :: Reads(code + x, news, x)
    ensures Size(a) <= Size(a + olds) <= |s|
    ensures Reads(s[..Size(a)] + code + s[Size(a + olds)..], a + news + b, rest)
  {
    hide Next, Length, Reads, Size;
    ReadsSplit(s, a + olds, b, rest);
    SizeConcat(a, olds);
    var tail := s[Size(a + olds)..];
    ReadsSplit(s, a, olds, tail);
    assert Reads(code + tail, news, tail);
    ReadsReplace(s, a, s[Size(a)..], code + tail);
    ReadsConcat(s[..Size(a)] + (code + tail), a, code + tail, news, tail);
    ReadsConcat(s[..Size(a)] + (code + tail), a + news, tail, b, rest);
    assert s[..Size(a)] + (code + tail) == s[..Size(a)] + code + tail;
  }

  lemma EncodeReads(t: Token)
    requires Writable(t)
    ensures forall x :: Reads(Encode(t) + x, [t], x)
  {
    forall x ensures Reads(Encode(t) + x, [t], x) {
      EncodeNext(t, x);
      assert (Encode(t) + x)[Length(t)..] == x;
    }
  }
}
