/**
 The XOR checksum of network messages (include/mvgal/mvgal_network.h): byte i is widened
 to 32 bits, shifted left by 8 * (i mod 4) and XORed into the sum.  Bytes and words are
 sequences of bits, least significant first.
 */
module XorChecksum {

  type Byte = b: seq<bool> | |b| == 8 witness Clear(8)

  type Word = w: seq<bool> | |w| == 32 witness Clear(32)

  // ---- Bits ----

  function Clear(n: nat): (r: seq<bool>)
    ensures |r| == n && forall i | 0 <= i < n :: !r[i]
  {
    seq(n, _ => false)
  }

  function Xor(a: seq<bool>, b: seq<bool>): (r: seq<bool>)
    requires |a| == |b|
    ensures |r| == |a| && forall i | 0 <= i < |a| :: r[i] == (a[i] != b[i])
  {
    seq(|a|, i requires 0 <= i < |a| => a[i] != b[i])
  }

  function ShiftLeft(w: Word, n: nat): Word
    requires n <= 32
  {
    Clear(n) + w[..32 - n]
  }

  lemma XorClear(a: seq<bool>)
    ensures Xor(a, Clear(|a|)) == a && Xor(Clear(|a|), a) == a
  {
  }

  lemma XorAssociates(a: seq<bool>, b: seq<bool>, c: seq<bool>)
    requires |a| == |b| == |c|
    ensures Xor(Xor(a, b), c) == Xor(a, Xor(b, c))
  {
  }

  /** XOR with a fixed value is injective, on either side. */
  lemma XorCancels(x: seq<bool>, y: seq<bool>, z: seq<bool>)
    requires |x| == |y| == |z| && y != z
    ensures Xor(x, y) != Xor(x, z) && Xor(y, x) != Xor(z, x)
  {
    var i :| 0 <= i < |y| && y[i] != z[i];
    assert Xor(x, y)[i] != Xor(x, z)[i] && Xor(y, x)[i] != Xor(z, x)[i];
  }

  lemma XorConcat(a: seq<bool>, b: seq<bool>, c: seq<bool>, d: seq<bool>)
    requires |a| == |c| && |b| == |d|
    ensures Xor(a + b, c + d) == Xor(a, c) + Xor(b, d)
  {
  }

  /** The little-endian word with these bytes. */
  function Pack(b0: Byte, b1: Byte, b2: Byte, b3: Byte): Word {
    b0 + b1 + b2 + b3
  }

  lemma PackXor(a0: Byte, a1: Byte, a2: Byte, a3: Byte, b0: Byte, b1: Byte, b2: Byte, b3: Byte)
    ensures Xor(Pack(a0, a1, a2, a3), Pack(b0, b1, b2, b3))
            == Pack(Xor(a0, b0), Xor(a1, b1), Xor(a2, b2), Xor(a3, b3))
  {
    XorConcat(a0 + a1 + a2, a3, b0 + b1 + b2, b3);
    XorConcat(a0 + a1, a2, b0 + b1, b2);
    XorConcat(a0, a1, b0, b1);
  }

  lemma PackInjective(a0: Byte, a1: Byte, a2: Byte, a3: Byte, b0: Byte, b1: Byte, b2: Byte, b3: Byte)
    requires Pack(a0, a1, a2, a3) == Pack(b0, b1, b2, b3)
    ensures a0 == b0 && a1 == b1 && a2 == b2 && a3 == b3
  {
    var w := Pack(a0, a1, a2, a3);
    assert w[..8] == a0 && w[8..16] == a1 && w[16..24] == a2 && w[24..] == a3;
    assert w[..8] == b0 && w[8..16] == b1 && w[16..24] == b2 && w[24..] == b3;
  }

  // ---- The byte loop ----

  /** `(uint32_t)b << (8 * k)`. */
  function Shifted(b: Byte, k: nat): Word
    requires k < 4
  {
    ShiftLeft(b + Clear(24), 8 * k)
  }

  /** The checksum as the loop builds it. */
  function Checksum(s: seq<Byte>): Word {
    if s == [] then Clear(32) else Xor(Checksum(s[..|s| - 1]), Shifted(s[|s| - 1], (|s| - 1) % 4))
  }

  /** mvgal_net_checksum_xor. */
  method ChecksumXor(data: seq<Byte>) returns (sum: Word)
    ensures sum == Checksum(data)
    ensures sum == XorOfWords(Padded(data))
  {
    sum := Clear(32);
    for i := 0 to |data|
      invariant sum == Checksum(data[..i])
    {
      assert data[..i + 1][..i] == data[..i];
      sum := Xor(sum, Shifted(data[i], i % 4));
    }
    assert data[..|data|] == data;
    ChecksumIsXorOfWords(data);
  }

  // ---- The word specification ----

  function Zeros(n: nat): (r: seq<Byte>)
    ensures |r| == n
  {
    if n == 0 then [] else Zeros(n - 1) + [Clear(8)]
  }

  /** Zero bytes up to a multiple of four. */
  function Padded(s: seq<Byte>): (r: seq<Byte>)
    ensures |r| % 4 == 0 && s <= r
  {
    s + Zeros((4 - |s| % 4) % 4)
  }

  /** The XOR of the little-endian 32-bit words of s. */
  function XorOfWords(s: seq<Byte>): Word
    requires |s| % 4 == 0
  {
    if s == [] then Clear(32) else Xor(Pack(s[0], s[1], s[2], s[3]), XorOfWords(s[4..]))
  }

  /** Splitting at a word boundary. */
  lemma {:induction false} ChecksumOfConcat(a: seq<Byte>, b: seq<Byte>)
    requires |a| % 4 == 0
    ensures Checksum(a + b) == Xor(Checksum(a), Checksum(b))
  {
    if b == [] {
      assert a + b == a;
      XorClear(Checksum(a));
    } else {
      var n := |b| - 1;
      ChecksumOfConcat(a, b[..n]);
      assert (a + b)[..|a + b| - 1] == a + b[..n];
      WholeWordsFirst(|a|, n);
      XorAssociates(Checksum(a), Checksum(b[..n]), Shifted(b[n], n % 4));
    }
  }

  lemma WholeWordsFirst(m: nat, n: nat)
    requires m % 4 == 0
    ensures (m + n) % 4 == n % 4
  {
  }

  lemma ShiftedClear(k: nat)
    requires k < 4
    ensures Shifted(Clear(8), k) == Clear(32)
  {
    ShiftedIsPacked(Clear(8), k);
  }

  lemma ShiftedIsPacked(b: Byte, k: nat)
    requires k < 4
    ensures Shifted(b, k) == Pack(if k == 0 then b else Clear(8), if k == 1 then b else Clear(8),
                                  if k == 2 then b else Clear(8), if k == 3 then b else Clear(8))
  {
  }

  lemma {:induction false} ChecksumOfPadding(s: seq<Byte>, n: nat)
    ensures Checksum(s + Zeros(n)) == Checksum(s)
  {
    if n == 0 {
      assert s + Zeros(0) == s;
    } else {
      ChecksumOfPadding(s, n - 1);
      var t := s + Zeros(n);
      assert t[..|t| - 1] == s + Zeros(n - 1);
      ShiftedClear((|t| - 1) % 4);
      XorClear(Checksum(s));
    }
  }

  lemma {:induction false} WordsFold(s: seq<Byte>)
    requires |s| % 4 == 0
    ensures XorOfWords(s) == Checksum(s)
  {
    if s == [] {
    } else {
      WordsFold(s[4..]);
      ChecksumOfConcat(s[..4], s[4..]);
      assert s == s[..4] + s[4..];
      ChecksumOfWord(s[..4]);
    }
  }

  lemma ChecksumOfWord(w: seq<Byte>)
    requires |w| == 4
    ensures Checksum(w) == Pack(w[0], w[1], w[2], w[3])
  {
    ChecksumLanes(w);
    LaneOfWord(w, 0);
    LaneOfWord(w, 1);
    LaneOfWord(w, 2);
    LaneOfWord(w, 3);
  }

  /** The checksum of any byte string is the XOR of the little-endian words of its
      zero-padded form. */
  lemma ChecksumIsXorOfWords(s: seq<Byte>)
    ensures Checksum(s) == XorOfWords(Padded(s))
  {
    WordsFold(Padded(s));
    ChecksumOfPadding(s, (4 - |s| % 4) % 4);
  }

  // ---- Lanes ----

  /** The XOR of the bytes at positions congruent to k modulo 4. */
  function LaneXor(s: seq<Byte>, k: nat): Byte {
    if s == [] then Clear(8)
    else
      var n := |s| - 1;
      if n % 4 == k then Xor(LaneXor(s[..n], k), s[n]) else LaneXor(s[..n], k)
  }

  lemma LaneOfWord(s: seq<Byte>, k: nat)
    requires |s| == 4 && k < 4
    ensures LaneXor(s, k) == s[k]
  {
    assert s[..3][..2] == s[..2] && s[..2][..1] == s[..1] && s[..1][..0] == [];
    XorClear(s[k]);
    assert LaneXor(s[..1], k) == if k == 0 then s[0] else Clear(8);
    assert LaneXor(s[..2], k) == if k <= 1 then s[k] else Clear(8);
    assert LaneXor(s[..3], k) == if k <= 2 then s[k] else Clear(8);
  }

  /** The four lanes side by side make up the checksum. */
  lemma {:induction false} ChecksumLanes(s: seq<Byte>)
    ensures Checksum(s) == Pack(LaneXor(s, 0), LaneXor(s, 1), LaneXor(s, 2), LaneXor(s, 3))
  {
    if s == [] {
    } else {
      var n := |s| - 1;
      var t, b, k := s[..n], s[n], n % 4;
      ChecksumLanes(t);
      ShiftedIsPacked(b, k);
      PackXor(LaneXor(t, 0), LaneXor(t, 1), LaneXor(t, 2), LaneXor(t, 3),
              if k == 0 then b else Clear(8), if k == 1 then b else Clear(8),
              if k == 2 then b else Clear(8), if k == 3 then b else Clear(8));
      XorClear(LaneXor(t, 0));
      XorClear(LaneXor(t, 1));
      XorClear(LaneXor(t, 2));
      XorClear(LaneXor(t, 3));
    }
  }

  // ---- Error detection ----

  /** Two strings of one length that differ only within a window of four positions. */
  ghost predicate DifferWithin(s: seq<Byte>, t: seq<Byte>, at: nat) {
    && |s| == |t|
    && forall i | 0 <= i < |s| && s[i] != t[i] :: at <= i < at + 4
  }

  /** Strings that agree on every position of a lane agree on that lane. */
  lemma {:induction false} LaneAgrees(s: seq<Byte>, t: seq<Byte>, k: nat)
    requires |s| == |t| && forall i | 0 <= i < |s| && i % 4 == k :: s[i] == t[i]
    ensures LaneXor(s, k) == LaneXor(t, k)
  {
    if s == [] {
    } else {
      LaneAgrees(s[..|s| - 1], t[..|s| - 1], k);
    }
  }

  lemma SameLaneIsFar(p: nat, n: nat)
    requires p < n
    ensures p % 4 == n % 4 ==> n >= p + 4
  {
  }

  /** The lane of a changed byte receives no other change. */
  lemma {:induction false} LaneDiffers(s: seq<Byte>, t: seq<Byte>, at: nat, p: nat)
    requires DifferWithin(s, t, at) && p < |s| && s[p] != t[p]
    ensures LaneXor(s, p % 4) != LaneXor(t, p % 4)
  {
    var n, k := |s| - 1, p % 4;
    if p == n {
      LaneAgrees(s[..n], t[..n], k);
      XorCancels(LaneXor(s[..n], k), s[n], t[n]);
    } else {
      LaneDiffers(s[..n], t[..n], at, p);
      SameLaneIsFar(p, n);
      XorCancels(s[n], LaneXor(s[..n], k), LaneXor(t[..n], k));
    }
  }

  predicate LanesAgree(s: seq<Byte>, t: seq<Byte>) {
    && LaneXor(s, 0) == LaneXor(t, 0) && LaneXor(s, 1) == LaneXor(t, 1)
    && LaneXor(s, 2) == LaneXor(t, 2) && LaneXor(s, 3) == LaneXor(t, 3)
  }

  /** Two strings have the same checksum if and only if they agree, lane by lane, in the
      XOR of their bytes; so the same error made twice in one lane, four positions apart,
      goes unnoticed. */
  lemma CollisionIffLanesAgree(s: seq<Byte>, t: seq<Byte>)
    ensures Checksum(s) == Checksum(t) <==> LanesAgree(s, t)
  {
    ChecksumLanes(s);
    ChecksumLanes(t);
    if Checksum(s) == Checksum(t) {
      PackInjective(LaneXor(s, 0), LaneXor(s, 1), LaneXor(s, 2), LaneXor(s, 3),
                    LaneXor(t, 0), LaneXor(t, 1), LaneXor(t, 2), LaneXor(t, 3));
    }
  }

  /** Every change confined to at most four consecutive bytes is detected. */
  lemma ShortErrorsAreDetected(s: seq<Byte>, t: seq<Byte>, at: nat)
    requires DifferWithin(s, t, at) && s != t
    ensures Checksum(s) != Checksum(t)
  {
    var p :| 0 <= p < |s| && s[p] != t[p];
    LaneDiffers(s, t, at, p);
    CollisionIffLanesAgree(s, t);
    assert p % 4 == 0 || p % 4 == 1 || p % 4 == 2 || p % 4 == 3;
  }
}
