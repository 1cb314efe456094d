/**
 The wire format of discovery messages (runtime/daemon/ipc_server.cpp): a packed
 40-byte header whose fields are byte-swapped on the sending host, sent as raw memory,
 and swapped back on the receiving host.  Hosts may have either byte order.
 */
module DiscoveryWire {

  import opened Common

  type byte = b: nat | b < 256

  datatype Order = Little | Big

  function Pow256(n: nat): nat {
    if n == 0 then 1 else 256 * Pow256(n - 1)
  }

  // ---- Integers in memory ----

  /** The n low bytes of x, least significant first. */
  function LowBytes(x: nat, n: nat): (r: seq<byte>)
    ensures |r| == n
  {
    if n == 0 then [] else [x % 256] + LowBytes(x / 256, n - 1)
  }

  function Value(bs: seq<byte>): nat {
    if bs == [] then 0 else bs[0] + 256 * Value(bs[1..])
  }

  function Reversed(bs: seq<byte>): (r: seq<byte>)
    ensures |r| == |bs|
  {
    seq(|bs|, i requires 0 <= i < |bs| => bs[|bs| - 1 - i])
  }

  /** An n-byte unsigned integer as it lies in the memory of a host. */
  function Stored(host: Order, x: nat, n: nat): (r: seq<byte>)
    ensures |r| == n
  {
    if host == Little then LowBytes(x, n) else Reversed(LowBytes(x, n))
  }

  function Loaded(host: Order, bs: seq<byte>): nat {
    if host == Little then Value(bs) else Value(Reversed(bs))
  }

  /** htons, htonl and htobe64 (and their inverses): swap the n bytes on a little-endian host. */
  function Swapped(host: Order, x: nat, n: nat): nat {
    if host == Little then Value(Reversed(LowBytes(x, n))) else x
  }

  lemma {:induction false} ValueOfLowBytes(x: nat, n: nat)
    requires x < Pow256(n)
    ensures Value(LowBytes(x, n)) == x
  {
    if n == 0 {
    } else {
      ValueOfLowBytes(x / 256, n - 1);
      assert LowBytes(x, n)[1..] == LowBytes(x / 256, n - 1);
    }
  }

  lemma {:induction false} LowBytesOfValue(bs: seq<byte>)
    ensures LowBytes(Value(bs), |bs|) == bs
    ensures Value(bs) < Pow256(|bs|)
  {
    if bs == [] {
    } else {
      LowBytesOfValue(bs[1..]);
      assert bs == [bs[0]] + bs[1..];
    }
  }

  lemma ReversedTwice(bs: seq<byte>)
    ensures Reversed(Reversed(bs)) == bs
  {
  }

  /** Swapping before the store puts the most significant byte first on every host. */
  lemma WireIsBigEndian(host: Order, x: nat, n: nat)
    ensures Stored(host, Swapped(host, x, n), n) == Reversed(LowBytes(x, n))
  {
    LowBytesOfValue(Reversed(LowBytes(x, n)));
  }

  /** A field swapped at its own width survives the trip between any two hosts. */
  lemma FieldRoundTrip(sender: Order, receiver: Order, x: nat, n: nat)
    requires x < Pow256(n)
    ensures Swapped(receiver, Loaded(receiver, Stored(sender, Swapped(sender, x, n), n)), n) == x
  {
    WireIsBigEndian(sender, x, n);
    var wire := Reversed(LowBytes(x, n));
    ReversedTwice(LowBytes(x, n));
    ValueOfLowBytes(x, n);
    if receiver == Little {
      LowBytesOfValue(wire);
    }
  }

  // ---- The header ----

  const MAGIC: nat := 0x4D564744
  const SIZE: nat := 40

  /** The header as the program handles it; tcpPort is a 32-bit field. */
  datatype Header = Header(magic: nat, version: nat, kind: nat, node: nat, gpus: nat, port: nat,
                           timestamp: nat, reserved: nat)

  predicate WellFormed(h: Header) {
    && h.magic < Pow256(4) && h.version < Pow256(4) && h.kind < Pow256(4) && h.node < Pow256(8)
    && h.gpus < Pow256(4) && h.port < Pow256(2) && h.timestamp < Pow256(8) && h.reserved < Pow256(4)
  }

  /** htons truncates to 16 bits; its result is widened again into the 32-bit field. */
  function SwappedPort(host: Order, port: nat): nat {
    Swapped(host, port % 0x1_0000, 2)
  }

  function Encode(host: Order, h: Header): (r: seq<byte>)
    ensures |r| == SIZE
  {
    Stored(host, Swapped(host, h.magic, 4), 4)
    + Stored(host, Swapped(host, h.version, 4), 4)
    + Stored(host, Swapped(host, h.kind, 4), 4)
    + Stored(host, Swapped(host, h.node, 8), 8)
    + Stored(host, Swapped(host, h.gpus, 4), 4)
    + Stored(host, SwappedPort(host, h.port), 4)
    + Stored(host, Swapped(host, h.timestamp, 8), 8)
    + Stored(host, Swapped(host, h.reserved, 4), 4)
  }

  datatype Announcement = Announcement(kind: nat, node: nat, gpus: nat, port: nat)

  /** What the receiver extracts: datagrams that are too short or carry another magic
      number are dropped, bytes after the header are ignored. */
  function Decode(host: Order, bs: seq<byte>): Option<Announcement> {
    if |bs| < SIZE || Swapped(host, Loaded(host, bs[0..4]), 4) != MAGIC then None
    else Some(Announcement(
                Swapped(host, Loaded(host, bs[8..12]), 4),
                Swapped(host, Loaded(host, bs[12..20]), 8),
                Swapped(host, Loaded(host, bs[20..24]), 4),
                SwappedPort(host, Loaded(host, bs[24..28]))))
  }

  /** Where each field lies in an encoded message. */
  lemma Layout(host: Order, h: Header, rest: seq<byte>)
    ensures var bs := Encode(host, h) + rest;
            && bs[0..4] == Stored(host, Swapped(host, h.magic, 4), 4)
            && bs[4..8] == Stored(host, Swapped(host, h.version, 4), 4)
            && bs[28..36] == Stored(host, Swapped(host, h.timestamp, 8), 8)
            && bs[36..40] == Stored(host, Swapped(host, h.reserved, 4), 4)
            && bs[8..12] == Stored(host, Swapped(host, h.kind, 4), 4)
            && bs[12..20] == Stored(host, Swapped(host, h.node, 8), 8)
            && bs[20..24] == Stored(host, Swapped(host, h.gpus, 4), 4)
            && bs[24..28] == Stored(host, SwappedPort(host, h.port), 4)
  {
    Slices(Stored(host, Swapped(host, h.magic, 4), 4), Stored(host, Swapped(host, h.version, 4), 4),
           Stored(host, Swapped(host, h.kind, 4), 4), Stored(host, Swapped(host, h.node, 8), 8),
           Stored(host, Swapped(host, h.gpus, 4), 4), Stored(host, SwappedPort(host, h.port), 4),
           Stored(host, Swapped(host, h.timestamp, 8), 8), Stored(host, Swapped(host, h.reserved, 4), 4), rest);
  }

  lemma Slices(magic: seq<byte>, version: seq<byte>, kind: seq<byte>, node: seq<byte>, gpus: seq<byte>,
               port: seq<byte>, timestamp: seq<byte>, reserved: seq<byte>, rest: seq<byte>)
    requires |magic| == |version| == |kind| == |gpus| == |port| == |reserved| == 4
    requires |node| == |timestamp| == 8
    ensures var bs := magic + version + kind + node + gpus + port + timestamp + reserved + rest;
            && bs[0..4] == magic && bs[4..8] == version && bs[28..36] == timestamp && bs[36..40] == reserved
            && bs[8..12] == kind && bs[12..20] == node
            && bs[20..24] == gpus && bs[24..28] == port
  {
  }

  // ---- The port: a 16-bit swap inside a 32-bit field ----

  lemma SmallBytes(x: nat)
    requires x < 0x1_0000
    ensures LowBytes(x, 4) == LowBytes(x, 2) + [0, 0]
  {
    assert LowBytes(x, 4) == [x % 256] + LowBytes(x / 256, 3);
    assert LowBytes(x / 256, 3) == [x / 256 % 256] + LowBytes(x / 256 / 256, 2);
    assert LowBytes(0, 2) == [0, 0];
  }

  lemma ValueOfTwo(a: byte, b: byte)
    ensures Value([a, b]) == a + 256 * b
  {
    assert [a, b][1..] == [b] && [b][1..] == [];
    assert Value([b]) == b;
  }

  lemma ValueOfFour(a: byte, b: byte, c: byte, d: byte)
    ensures Value([a, b, c, d]) == a + 256 * b + 65536 * c + 16777216 * d
  {
    ValueOfTwo(c, d);
    assert [a, b, c, d][1..] == [b, c, d] && [b, c, d][1..] == [c, d];
    assert Value([b, c, d]) == b + 256 * Value([c, d]);
  }

  lemma SwappedPortIs(host: Order, port: nat)
    requires port < 0x1_0000
    ensures SwappedPort(host, port) == if host == Little then port / 256 + 256 * (port % 256) else port
    ensures SwappedPort(host, port) < 0x1_0000
  {
    var bs := LowBytes(port, 2);
    assert bs == [port % 256, port / 256] by {
      assert bs == [port % 256] + LowBytes(port / 256, 1);
      assert LowBytes(port / 256, 1) == [port / 256 % 256] + LowBytes(port / 256 / 256, 0);
    }
    assert Reversed(bs) == [port / 256, port % 256];
    ValueOfTwo(port / 256, port % 256);
  }

  lemma PortBytes(x: nat, lo: byte, hi: byte)
    requires x == lo + 256 * hi
    ensures LowBytes(x, 4) == [lo, hi, 0, 0]
  {
    SmallBytes(x);
    assert x % 256 == lo && x / 256 == hi;
    assert LowBytes(x, 2) == [lo] + LowBytes(hi, 1);
    assert LowBytes(hi, 1) == [hi % 256] + LowBytes(hi / 256, 0);
  }

  lemma HighHalfOnly(a: nat, b: nat)
    ensures (65536 * a + 16777216 * b) % 0x1_0000 == 0
  {
    assert 65536 * a + 16777216 * b == 65536 * (a + 256 * b);
  }

  /** The 32-bit value the receiver finds in the port field, modulo 2^16. */
  lemma LoadedPort(sender: Order, receiver: Order, x: nat, lo: byte, hi: byte)
    requires x == lo + 256 * hi
    ensures Loaded(receiver, Stored(sender, x, 4)) % 0x1_0000 == if sender == receiver then x else 0
  {
    PortBytes(x, lo, hi);
    assert Reversed([lo, hi, 0, 0]) == [0, 0, hi, lo];
    assert Reversed([0, 0, hi, lo]) == [lo, hi, 0, 0];
    ValueOfFour(lo, hi, 0, 0);
    ValueOfFour(0, 0, hi, lo);
    HighHalfOnly(hi, lo);
  }

  lemma PortRoundTrip(sender: Order, receiver: Order, port: nat)
    requires port < 0x1_0000
    ensures SwappedPort(receiver, Loaded(receiver, Stored(sender, SwappedPort(sender, port), 4)))
            == if sender == receiver then port else 0
  {
    SwappedPortIs(sender, port);
    var x := SwappedPort(sender, port);
    LoadedPort(sender, receiver, x, x % 256, x / 256);
    var low := if sender == receiver then x else 0;
    TruncatedPort(receiver, Loaded(receiver, Stored(sender, x, 4)), low);
    TwoBytes(port / 256, port % 256);
  }

  lemma TwoBytes(a: byte, b: byte)
    ensures (a + 256 * b) / 256 == b && (a + 256 * b) % 256 == a
  {
  }

  /** ntohs looks only at the low 16 bits. */
  lemma TruncatedPort(host: Order, y: nat, low: nat)
    requires y % 0x1_0000 == low
    ensures SwappedPort(host, y) == if host == Little then low / 256 + 256 * (low % 256) else low
  {
    assert low < 0x1_0000 && low % 0x1_0000 == low;
    SwappedPortIs(host, low);
  }

  // ---- Main result ----

  /** Whatever the two byte orders and whatever follows the header, the receiver gets
      back message type, node id and GPU count.  It gets the TCP port back if and only
      if the hosts share a byte order or the port is 0: otherwise it reads 0. */
  lemma RoundTrip(sender: Order, receiver: Order, h: Header, rest: seq<byte>)
    requires WellFormed(h) && h.magic == MAGIC
    ensures var d := Decode(receiver, Encode(sender, h) + rest);
            && d.Some?
            && d.value.kind == h.kind && d.value.node == h.node && d.value.gpus == h.gpus
            && d.value.port == (if sender == receiver then h.port else 0)
            && (d.value.port == h.port <==> sender == receiver || h.port == 0)
  {
    Layout(sender, h, rest);
    FieldRoundTrip(sender, receiver, h.magic, 4);
    FieldRoundTrip(sender, receiver, h.kind, 4);
    FieldRoundTrip(sender, receiver, h.node, 8);
    FieldRoundTrip(sender, receiver, h.gpus, 4);
    PortRoundTrip(sender, receiver, h.port);
  }

  /** A message with another magic number is dropped on every host, and only then. */
  lemma DroppedIffMagicDiffers(sender: Order, receiver: Order, h: Header, rest: seq<byte>)
    requires WellFormed(h)
    ensures Decode(receiver, Encode(sender, h) + rest).None? <==> h.magic != 0x4D564744
  {
    Layout(sender, h, rest);
    FieldRoundTrip(sender, receiver, h.magic, 4);
  }
}
