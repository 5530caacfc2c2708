/** Bytes, fixed-width unsigned integers in big-endian order, and Go's byte-wise string order. */
module Bytes {

  type byte = x: int | 0 <= x < 256
  type uint16 = x: int | 0 <= x < 0x1_0000
  type uint64 = x: int | 0 <= x < 0x1_0000_0000_0000_0000
  /** Go's `int64`, the representation of `time.Duration`. */
  type int64 = x: int | -0x8000_0000_0000_0000 <= x < 0x8000_0000_0000_0000

  type PeerId = seq<byte>

  /** The largest length a Go slice can have; `make` panics above it. */
  const MAX_INT: nat := 0x7fff_ffff_ffff_ffff

  function Pow256(w: nat): (p: nat)
    ensures p > 0
  {
    if w == 0 then 1 else 256 * Pow256(w - 1)
  }

  /** `binary.BigEndian.PutUintXX`: the low `w` bytes of `n`, most significant first. */
  function BE(n: nat, w: nat): (s: seq<byte>)
    ensures |s| == w
  {
    if w == 0 then [] else BE(n / 256, w - 1) + [n % 256]
  }

  /** `binary.BigEndian.UintXX` */
  function FromBE(s: seq<byte>): nat
  {
    if s == [] then 0 else 256 * FromBE(s[..|s| - 1]) + s[|s| - 1]
  }

  lemma {:induction false} FromBEBound(s: seq<byte>)
    ensures FromBE(s) < Pow256(|s|)
  {
    if s != [] {
      FromBEBound(s[..|s| - 1]);
    }
  }

  lemma FromBEAppend(s: seq<byte>, b: byte)
    ensures FromBE(s + [b]) == 256 * FromBE(s) + b
  {
    assert (s + [b])[..|s|] == s;
  }

  lemma QuotientFits(n: nat, p: nat)
    requires n < 256 * p
    ensures n / 256 < p && 256 * (n / 256) + n % 256 == n
  {
  }

  lemma Unfolded(n: nat, w: nat)
    ensures w == 0 ==> Pow256(w) == 1 && BE(n, w) == [] && FromBE([]) == 0
    ensures w > 0 ==> Pow256(w) == 256 * Pow256(w - 1) && BE(n, w) == BE(n / 256, w - 1) + [n % 256]
  {
  }

  /** Decoding undoes encoding for every number that fits the width. */
  lemma {:induction false} BERoundTrip(n: nat, w: nat)
    requires n < Pow256(w)
    ensures FromBE(BE(n, w)) == n
  {
    Unfolded(n, w);
    hide *;
    if w != 0 {
      QuotientFits(n, Pow256(w - 1));
      BERoundTrip(n / 256, w - 1);
      FromBEAppend(BE(n / 256, w - 1), n % 256);
    }
  }

  /** Encoding undoes decoding for every byte string. */
  lemma {:induction false} FromBERoundTrip(s: seq<byte>)
    ensures BE(FromBE(s), |s|) == s
  {
    if s != [] {
      FromBERoundTrip(s[..|s| - 1]);
    }
  }

  lemma Pow256Values()
    ensures Pow256(0) == 1 && Pow256(1) == 0x100 && Pow256(2) == 0x1_0000
    ensures Pow256(4) == 0x1_0000_0000
    ensures Pow256(8) == 0x1_0000_0000_0000_0000
  {
    assert Pow256(3) == 0x100_0000;
    assert Pow256(5) == 0x100_0000_0000;
    assert Pow256(6) == 0x1_0000_0000_0000;
    assert Pow256(7) == 0x100_0000_0000_0000;
  }

  /** The number that two, four and eight bytes from position `i` on stand for. */
  function Two(s: seq<byte>, i: nat): nat
    requires i + 2 <= |s|
  {
    0x100 * s[i] as int + s[i + 1]
  }

  function Four(s: seq<byte>, i: nat): nat
    requires i + 4 <= |s|
  {
    0x1_0000 * Two(s, i) + Two(s, i + 2)
  }

  function Eight(s: seq<byte>, i: nat): nat
    requires i + 8 <= |s|
  {
    0x1_0000_0000 * Four(s, i) + Four(s, i + 4)
  }

  /** `FromBE` on these widths. */
  lemma Digits(s: seq<byte>)
    ensures |s| == 1 ==> FromBE(s) == s[0]
    ensures |s| == 2 ==> FromBE(s) == Two(s, 0)
    ensures |s| == 4 ==> FromBE(s) == Four(s, 0)
    ensures |s| == 8 ==> FromBE(s) == Eight(s, 0)
  {
    if |s| == 1 || |s| == 2 || |s| == 4 || |s| == 8 {
      DigitsFrom(s, |s|);
    }
  }

  /** The value of the first `k` bytes, one after the other. */
  lemma {:induction false} DigitsFrom(s: seq<byte>, k: nat)
    requires k <= |s|
    ensures forall i :: 0 <= i < k ==> FromBE(s[..i + 1]) == 256 * FromBE(s[..i]) + s[i]
    ensures FromBE(s[..0]) == 0 && s[..|s|] == s
  {
    if k > 0 {
      DigitsFrom(s, k - 1);
      assert s[..k][..k - 1] == s[..k - 1];
    }
  }

  /** The 8-byte key under which a message id is stored and sent. */
  function Key(id: uint64): (k: seq<byte>)
    ensures |k| == 8
    ensures FromBE(k) == id
  {
    Pow256Values();
    BERoundTrip(id, 8);
    BE(id, 8)
  }

  function FromKey(k: seq<byte>): (id: uint64)
    requires |k| == 8
    ensures Key(id) == k && id == FromBE(k)
  {
    Pow256Values();
    FromBEBound(k);
    FromBERoundTrip(k);
    FromBE(k)
  }

  /** Go's `<` on strings and bbolt's order on keys: byte-wise, a proper prefix first. */
  predicate LexLess(a: seq<byte>, b: seq<byte>)
  {
    b != [] && (a == [] || a[0] < b[0] || (a[0] == b[0] && LexLess(a[1..], b[1..])))
  }

  lemma {:induction false} LexTrichotomy(a: seq<byte>, b: seq<byte>)
    ensures LexLess(a, b) || LexLess(b, a) || a == b
    ensures !(LexLess(a, b) && LexLess(b, a))
    ensures !LexLess(a, a)
  {
    if a != [] && b != [] && a[0] == b[0] {
      LexTrichotomy(a[1..], b[1..]);
      assert a == [a[0]] + a[1..] && b == [b[0]] + b[1..];
    }
    if a != [] {
      LexTrichotomy(a[1..], a[1..]);
    }
  }

  lemma Shift(x: nat, p: nat, y: nat, z: nat)
    ensures 256 * (x * p + y) + z == x * (256 * p) + (256 * y + z)
  {
  }

  lemma {:induction false} FromBEHead(s: seq<byte>)
    requires s != []
    ensures FromBE(s) == s[0] * Pow256(|s| - 1) + FromBE(s[1..])
  {
    if |s| > 1 {
      var p := Pow256(|s| - 2);
      FromBEHead(s[..|s| - 1]);
      assert s[..|s| - 1][1..] == s[1..][..|s| - 2];
      var x, y, z := s[0], FromBE(s[..|s| - 1][1..]), s[|s| - 1];
      Shift(x, p, y, z);
    }
  }

  lemma {:induction false} MulMonotone(x: nat, y: nat, p: nat)
    requires x <= y
    ensures x * p <= y * p
    decreases y - x
  {
    if x < y {
      MulMonotone(x + 1, y, p);
      assert (x + 1) * p == x * p + p;
    }
  }

  lemma {:induction false} HigherDigitWins(x: nat, y: nat, p: nat, u: nat, v: nat)
    requires x < y && u < p
    ensures x * p + u < y * p + v
  {
    calc <= {
      x * p + p;
      (x + 1) * p;
      { MulMonotone(x + 1, y, p); }
      y * p;
    }
  }

  /** On byte strings of one length, byte-wise order is numeric order. */
  lemma {:induction false} LexIsNumeric(a: seq<byte>, b: seq<byte>)
    requires |a| == |b|
    ensures LexLess(a, b) <==> FromBE(a) < FromBE(b)
  {
    if a != [] {
      var x, y, p := a[0], b[0], Pow256(|a| - 1);
      var u, v := FromBE(a[1..]), FromBE(b[1..]);
      assert FromBE(a) == x * p + u && u < p by {
        FromBEHead(a);
        FromBEBound(a[1..]);
      }
      assert FromBE(b) == y * p + v && v < p by {
        FromBEHead(b);
        FromBEBound(b[1..]);
      }
      if x < y {
        HigherDigitWins(x, y, p, u, v);
      } else if y < x {
        HigherDigitWins(y, x, p, v, u);
      } else {
        LexIsNumeric(a[1..], b[1..]);
      }
    }
  }

  /** Keys sort as the ids they hold, for all 64-bit ids. */
  lemma KeyOrder(i: uint64, j: uint64)
    ensures LexLess(Key(i), Key(j)) <==> i < j
  {
    LexIsNumeric(Key(i), Key(j));
  }

  /** Go's `uint64(d)` for a signed `d`, and the conversion back: two's complement. */
  function ToUint64(d: int64): (u: uint64)
    ensures (u - d) % 0x1_0000_0000_0000_0000 == 0
  {
    if d < 0 then d + 0x1_0000_0000_0000_0000 else d
  }

  function ToInt64(u: uint64): (d: int64)
    ensures ToUint64(d) == u
  {
    if u >= 0x8000_0000_0000_0000 then u - 0x1_0000_0000_0000_0000 else u
  }

  /** Go's `append(a, s...)`, into a new buffer. */
  method Append(a: array<byte>, s: seq<byte>) returns (r: array<byte>)
    ensures fresh(r) && r[..] == a[..] + s
  {
    var n := a.Length;
    r := new byte[n + |s|](i => 0);
    forall i | 0 <= i < n { r[i] := a[i]; }
    forall i | 0 <= i < |s| { r[n + i] := s[i]; }
    assert r[..n] == a[..] && r[n..] == s;
  }

  /** The start all action payloads share: two tag bytes, the id, and a byte for a flag or a length. */
  method NewPayload(flag: byte, kind: byte, id: uint64, last: byte) returns (r: array<byte>)
    ensures fresh(r) && r[..] == [flag, kind] + Key(id) + [last]
  {
    var key := Key(id);
    hide *;
    r := new byte[11](i => 0);
    r[0] := flag;
    r[1] := kind;
    forall i | 0 <= i < |key| { r[2 + i] := key[i]; }
    r[10] := last;
    assert r[..] == [flag, kind] + key + [last];
  }
}
