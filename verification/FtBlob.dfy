/** Bytes of a flattened device tree blob: moving, inserting and removing them. */
module FtBlob {
  import opened Bits

  /** A region of memory. */
  datatype Region = Region(start: int, size: int) {
    function End(): int { start + size }
  }

  /** `data` put at `at`. */
  function Put(blob: seq<byte>, at: nat, data: seq<byte>): (r: seq<byte>)
    requires at + |data| <= |blob|
    ensures |r| == |blob|
  {
    blob[..at] + data + blob[at + |data|..]
  }

  /** `n` bytes moved from `src` to `dst`; the two may overlap. */
  function Move(blob: seq<byte>, dst: nat, src: nat, n: nat): (r: seq<byte>)
    requires dst + n <= |blob| && src + n <= |blob|
    ensures |r| == |blob|
  {
    Put(blob, dst, blob[src..src + n])
  }

  /** `b` is `a` with `n` bytes of any kind inserted at `at`, or with `-n` bytes removed there. */
  ghost predicate Gap(a: seq<byte>, b: seq<byte>, at: nat, n: int) {
    && at <= |a| && at - n <= |a| && |b| == |a| + n && at <= |b|
    && b[..at] == a[..at]
    && if n >= 0 then b[at + n..] == a[at..] else b[at..] == a[at - n..]
  }

  lemma PutElsewhere(blob: seq<byte>, at: nat, data: seq<byte>, from: nat, to: nat)
    requires at + |data| <= |blob| && from <= to <= |blob| && (to <= at || at + |data| <= from)
    ensures Put(blob, at, data)[from..to] == blob[from..to]
  {
    var r := Put(blob, at, data);
    if to <= at {
      assert r[..at] == blob[..at];
      assert r[..at][from..to] == r[from..to] && blob[..at][from..to] == blob[from..to];
    } else {
      var e := at + |data|;
      assert r[e..] == blob[e..];
      assert r[e..][from - e..to - e] == r[from..to] && blob[e..][from - e..to - e] == blob[from..to];
    }
  }

  lemma PutThere(blob: seq<byte>, at: nat, data: seq<byte>)
    requires at + |data| <= |blob|
    ensures Put(blob, at, data)[at..at + |data|] == data
  {
  }

  /** Opening a gap of `n` bytes at `q` by moving what follows in the region `s` to `e` up. */
  lemma GapUp(blob: seq<byte>, s: nat, e: nat, q: nat, n: nat)
    requires s <= q <= e && e + n <= |blob|
    ensures Gap(blob[s..e], Move(blob, q + n, q, e - q)[s..e + n], q - s, n)
  {
    var b := Move(blob, q + n, q, e - q);
    assert b[s..e + n][q - s + n..] == b[q + n..e + n] == blob[q..e];
  }

  /** Closing a gap. */
  lemma GapClose(blob: seq<byte>, s: nat, e: nat, q: nat, n: nat)
    requires s <= q && q + n <= e <= |blob|
    ensures Gap(blob[s..e], Move(blob, q, q + n, e - q - n)[s..e - n], q - s, 0 - n)
  {
    var b := Move(blob, q, q + n, e - q - n);
    assert b[s..e - n][q - s..] == b[q..e - n] == blob[q + n..e];
  }

  /** Opening a gap by moving what precedes down. */
  lemma GapDown(blob: seq<byte>, s: nat, e: nat, q: nat, n: nat)
    requires n <= s <= q <= e <= |blob|
    ensures Gap(blob[s..e], Move(blob, s - n, s, q - s)[s - n..e], q - s, n)
  {
    var b := Move(blob, s - n, s, q - s);
    assert b[s - n..e][..q - s] == b[s - n..q - n] == blob[s..q];
    assert b[s - n..e][q - s + n..] == b[q..e] == blob[q..e];
  }

  lemma MoveElsewhere(blob: seq<byte>, dst: nat, src: nat, n: nat, from: nat, to: nat)
    requires dst + n <= |blob| && src + n <= |blob| && from <= to <= |blob| && (to <= dst || dst + n <= from)
    ensures Move(blob, dst, src, n)[from..to] == blob[from..to]
  {
    hide Put;
    PutElsewhere(blob, dst, blob[src..src + n], from, to);
  }

  /** Bytes put one after the other. */
  lemma PutPut(b: seq<byte>, at: nat, x: seq<byte>, y: seq<byte>)
    requires at + |x| + |y| <= |b|
    ensures Put(Put(b, at, x), at + |x|, y) == Put(b, at, x + y)
  {
  }

  /** Bytes put over the start of others. */
  lemma PutOver(b: seq<byte>, at: nat, x: seq<byte>, y: seq<byte>, k: nat)
    requires k <= |x| <= k + |y| && at + k + |y| <= |b|
    ensures Put(Put(b, at + k, y), at, x) == Put(b, at, x + y[|x| - k..])
  {
  }

  /** A gap filled with bytes. */
  lemma GapFill(a: seq<byte>, b: seq<byte>, at: nat, data: seq<byte>)
    requires Gap(a, b, at, |data|)
    ensures Put(b, at, data) == a[..at] + data + a[at..]
  {
  }

  /** Bytes put where `olds` bytes have grown or shrunk by `n`. */
  lemma GapOver(a: seq<byte>, b: seq<byte>, at: nat, n: int, olds: nat, data: seq<byte>)
    requires Gap(a, b, at, n) && |data| == olds + n && at + olds <= |a|
    ensures at + |data| <= |b| && Put(b, at, data) == a[..at] + data + a[at + olds..]
  {
  }

  /** A gap does not notice bytes put before it. */
  lemma GapPut(a: seq<byte>, b: seq<byte>, at: nat, n: int, q: nat, data: seq<byte>)
    requires Gap(a, b, at, n) && q + |data| <= at
    ensures Gap(Put(a, q, data), Put(b, q, data), at, n)
  {
    var x, y := Put(a, q, data), Put(b, q, data);
    assert y[..at] == x[..at];
    if n >= 0 {
      assert y[at + n..] == b[at + n..] && x[at..] == a[at..];
    } else {
      assert y[at..] == b[at..] && x[at - n..] == a[at - n..];
    }
  }

  lemma WordBytes(b: seq<byte>)
    requires |b| == 4
    ensures Bytes(Word(b)) == b
  {
    var w := Word(b);
    var b0: int, b1: int, b2: int, b3: int := b[0], b[1], b[2], b[3];
    var w1 := b0 * 256 + b1;
    var w2 := w1 * 256 + b2;
    assert w == w2 * 256 + b3;
    assert w / 256 == w2 && w % 256 == b3;
    assert w2 / 256 == w1 && w2 % 256 == b2;
    assert w1 / 256 == b0 && w1 % 256 == b1;
  }

  /** Big-endian words. */
  function Word(b: seq<byte>): (w: nat)
    requires |b| == 4
    ensures w < 0x1_0000_0000
  {
    var b0: int, b1: int, b2: int, b3: int := b[0], b[1], b[2], b[3];
    ((b0 * 256 + b1) * 256 + b2) * 256 + b3
  }

  function Bytes(w: nat): (b: seq<byte>)
    requires w < 0x1_0000_0000
    ensures |b| == 4 && Word(b) == w
  {
    var b2, b1 := w / 256, w / 256 / 256;
    var b0 := b1 / 256;
    assert w == 256 * b2 + w % 256 && b2 == 256 * b1 + b2 % 256 && b1 == 256 * b0 + b1 % 256;
    [b0, b1 % 256, b2 % 256, w % 256]
  }

  /** Round up to a multiple of 4. */
  /** The high byte comes first. */
  lemma BytesAre(w: nat)
    requires w < 0x1_0000_0000
    ensures Bytes(w) == [w / 0x100_0000, w / 0x1_0000 % 0x100, w / 0x100 % 0x100, w % 0x100]
  {
  }

  function Align4(n: nat): (r: nat)
    ensures n <= r < n + 4 && r % 4 == 0
  {
    (n + 3) / 4 * 4
  }

  function Align8(n: nat): (r: nat)
    ensures n <= r < n + 8 && r % 8 == 0
  {
    (n + 7) / 8 * 8
  }
}
