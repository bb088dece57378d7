/** The frame header that `gen_unicast_frame`, `gen_multicast_frame` and
    `gen_broadcast_frame` write into a `packet_data_t`, with the sequence
    number of `fill_pkt_hdr` (app_traffic_gen/src/packet_generator.c).

    The bytes after the `delay` word follow the MAC frame field order of
    section 3.1.1 of IEEE 802.3: destination address, source address, the
    two-byte length/type field, and then the client data, whose first four
    bytes carry the big-endian sequence number. */
module Frame {
  import opened Machine
  import opened Generator

  const BroadcastMac: Mac := [0xff, 0xff, 0xff, 0xff, 0xff, 0xff]

  /** Bytes of the header after `delay`: 6 + 6 + 2 + 4. */
  const HeaderSize: nat := 18

  /** The frame type that tags each kind of generated frame. */
  function FrameType(k: PktType): (v: nat)
    ensures v < 0x1_0000
  {
    match k
    case Unicast => 0x8932
    case Multicast => 0x8933
    case Broadcast => 0x8934
  }

  /** The kind a frame type stands for, if it is one of the three. */
  function KindOf(v: nat): (k: Option<PktType>)
    ensures k.Some? ==> FrameType(k.value) == v
    ensures forall p: PktType :: FrameType(p) == v ==> k == Some(p)
  {
    if v == 0x8932 then Some(Unicast)
    else if v == 0x8933 then Some(Multicast)
    else if v == 0x8934 then Some(Broadcast)
    else None
  }

  /** The fields of a `packet_data_t` after `delay`. */
  datatype Header = Header(dest: Mac, src: Mac, frameType: nat, seqNum: U32)

  predicate WellFormed(h: Header) {
    h.frameType < 0x1_0000
  }

  function Pow256(n: nat): (p: nat)
    ensures p >= 1
  {
    if n == 0 then 1 else 256 * Pow256(n - 1)
  }

  /** The low `n` bytes of `x`, most significant first. */
  function BigEndian(x: nat, n: nat): (bs: seq<Byte>)
    ensures |bs| == n
  {
    if n == 0 then [] else BigEndian(x / 256, n - 1) + [x % 256]
  }

  /** The number whose big-endian bytes are `bs`. */
  function BigEndianValue(bs: seq<Byte>): (v: nat)
    ensures v < Pow256(|bs|)
  {
    if bs == [] then 0 else BigEndianValue(bs[..|bs| - 1]) * 256 + bs[|bs| - 1]
  }

  lemma {:induction false} BigEndianRoundTrip(x: nat, n: nat)
    requires x < Pow256(n)
    ensures BigEndianValue(BigEndian(x, n)) == x
    decreases n
  {
    if n > 0 {
      var bs := BigEndian(x, n);
      assert bs[..n - 1] == BigEndian(x / 256, n - 1);
      BigEndianRoundTrip(x / 256, n - 1);
    }
  }

  lemma {:induction false} BigEndianOfValue(bs: seq<Byte>)
    ensures BigEndian(BigEndianValue(bs), |bs|) == bs
    decreases |bs|
  {
    if bs != [] {
      var init := bs[..|bs| - 1];
      var v := BigEndianValue(bs);
      assert v / 256 == BigEndianValue(init) && v % 256 == bs[|bs| - 1];
      BigEndianOfValue(init);
    }
  }

  /** The four sequence-number bytes are the shifts and masks of the C code:
      byte 0 holds bits 31..24 and byte 3 bits 7..0. */
  lemma SeqNumBytes(x: U32)
    ensures BigEndian(x, 4) == [x / 0x100_0000 % 256, x / 0x1_0000 % 256, x / 0x100 % 256, x % 256]
  {
    assert BigEndian(x, 4) == BigEndian(x / 256, 3) + [x % 256];
    assert BigEndian(x / 256, 3) == BigEndian(x / 256 / 256, 2) + [x / 256 % 256];
    assert BigEndian(x / 256 / 256, 2) == BigEndian(x / 256 / 256 / 256, 1) + [x / 256 / 256 % 256];
    assert BigEndian(x / 256 / 256 / 256, 1) == [x / 256 / 256 / 256 % 256];
    assert x / 256 / 256 == x / 0x1_0000;
    assert x / 256 / 256 / 256 == x / 0x100_0000;
  }

  /** The 18 header bytes in wire order. */
  function HeaderBytes(h: Header): (bs: seq<Byte>)
    ensures |bs| == HeaderSize
  {
    h.dest + h.src + BigEndian(h.frameType, 2) + BigEndian(h.seqNum, 4)
  }

  /** Reads a header back from the first 18 bytes, or nothing from fewer. */
  function ParseHeader(bs: seq<Byte>): (h: Option<Header>)
    ensures h.Some? <==> |bs| >= HeaderSize
    ensures h.Some? ==> WellFormed(h.value)
  {
    if |bs| < HeaderSize then None
    else
      var seqNum := BigEndianValue(bs[14..18]);
      assert Pow256(4) == TwoTo32;
      Some(Header(bs[0..6], bs[6..12], BigEndianValue(bs[12..14]), seqNum))
  }

  /** Parsing undoes writing. */
  lemma ParseHeaderBytes(h: Header)
    requires WellFormed(h)
    ensures ParseHeader(HeaderBytes(h)) == Some(h)
  {
    var bs := HeaderBytes(h);
    assert bs[0..6] == h.dest && bs[6..12] == h.src;
    assert bs[12..14] == BigEndian(h.frameType, 2);
    assert bs[14..18] == BigEndian(h.seqNum, 4);
    BigEndianRoundTrip(h.frameType, 2);
    assert Pow256(4) == TwoTo32;
    BigEndianRoundTrip(h.seqNum, 4);
  }

  /** Writing undoes parsing: the parsed header re-encodes to the same 18 bytes. */
  lemma HeaderBytesOfParse(bs: seq<Byte>)
    requires |bs| >= HeaderSize
    ensures HeaderBytes(ParseHeader(bs).value) == bs[..HeaderSize]
  {
    BigEndianOfValue(bs[12..14]);
    BigEndianOfValue(bs[14..18]);
    assert bs[..HeaderSize] == bs[0..6] + bs[6..12] + bs[12..14] + bs[14..18];
  }

  /** One generated frame header and the tables afterwards. */
  datatype Generated = Generated(header: Header, tables: Tables)

  /** `gen_<kind>_frame` followed by `fill_pkt_hdr`: the addresses of the
      kind (unicast and multicast read the table at the read index and carry
      the configured source address; broadcast carries the broadcast address
      twice), the kind's frame type, and the current counter, which then
      advances modulo 2^32. */
  function GenFrame(k: PktType, t: Tables): (g: Generated)
    ensures WellFormed(g.header)
    ensures KindOf(g.header.frameType) == Some(k)
    ensures g.header.seqNum == t.seqNum
    ensures g.tables == t.(seqNum := ToU32(t.seqNum + 1))
    ensures k == Unicast ==> g.header.dest == GetUnicastMac(t.directed, t.readIndex)
    ensures k == Multicast ==> g.header.dest == GetMulticastMac(t.directed, t.readIndex)
    ensures k == Broadcast ==> g.header.dest == BroadcastMac && g.header.src == BroadcastMac
    ensures k != Broadcast ==> g.header.src == t.srcMac
  {
    var dest := match k
      case Unicast => GetUnicastMac(t.directed, t.readIndex)
      case Multicast => GetMulticastMac(t.directed, t.readIndex)
      case Broadcast => BroadcastMac;
    var src := if k == Broadcast then BroadcastMac else t.srcMac;
    Generated(Header(dest, src, FrameType(k), t.seqNum), t.(seqNum := ToU32(t.seqNum + 1)))
  }

  /** Headers of a run of generated frames of the given kinds. */
  function GenFrames(ks: seq<PktType>, t: Tables): (hs: seq<Header>)
    ensures |hs| == |ks|
    decreases |ks|
  {
    if ks == [] then []
    else
      var g := GenFrame(ks[0], t);
      [g.header] + GenFrames(ks[1..], g.tables)
  }

  /** The tables after a run of generated frames. */
  function AfterFrames(ks: seq<PktType>, t: Tables): Tables
    decreases |ks|
  {
    if ks == [] then t else AfterFrames(ks[1..], GenFrame(ks[0], t).tables)
  }

  /** Reducing before adding does not change the sum modulo 2^32. */
  lemma AddAfterWrap(a: int, j: int)
    ensures (ToU32(a + 1) + j) % TwoTo32 == (a + 1 + j) % TwoTo32
  {
  }

  /** Only the counter changes over a run, and it advances by the run's length. */
  lemma {:induction false} TablesAfterFrames(ks: seq<PktType>, t: Tables)
    ensures AfterFrames(ks, t) == t.(seqNum := (t.seqNum + |ks|) % TwoTo32)
    decreases |ks|
  {
    if ks != [] {
      var g := GenFrame(ks[0], t);
      TablesAfterFrames(ks[1..], g.tables);
      AddAfterWrap(t.seqNum, |ks| - 1);
    }
  }

  /** The counter is shared by all kinds: the j-th frame of a run carries
      the starting counter plus j modulo 2^32, whatever the kinds. */
  lemma {:induction false} FrameSequenceNumbers(ks: seq<PktType>, t: Tables)
    ensures forall j :: 0 <= j < |ks| ==> GenFrames(ks, t)[j].seqNum == (t.seqNum + j) % TwoTo32
    decreases |ks|
  {
    if ks != [] {
      var g := GenFrame(ks[0], t);
      var rest := GenFrames(ks[1..], g.tables);
      FrameSequenceNumbers(ks[1..], g.tables);
      var hs := GenFrames(ks, t);
      assert hs == [g.header] + rest;
      forall j | 0 < j < |ks|
        ensures hs[j].seqNum == (t.seqNum + j) % TwoTo32
      {
        assert hs[j] == rest[j - 1];
        AddAfterWrap(t.seqNum, j - 1);
      }
    }
  }

  /** Incrementing a wrapped counter is incrementing and then wrapping. */
  lemma IncrementAfterWrap(a: int)
    ensures ToU32(ToU32(a) + 1) == ToU32(a + 1)
  {
  }

  /** Consecutive frames carry consecutive counters, wrapping from 0xFFFFFFFF
      to 0. */
  lemma ConsecutiveSequenceNumbers(ks: seq<PktType>, t: Tables, j: nat)
    requires j + 1 < |ks|
    ensures GenFrames(ks, t)[j + 1].seqNum == ToU32(GenFrames(ks, t)[j].seqNum + 1)
  {
    var hs := GenFrames(ks, t);
    FrameSequenceNumbers(ks, t);
    assert hs[j].seqNum == ToU32(t.seqNum + j);
    assert hs[j + 1].seqNum == ToU32(t.seqNum + j + 1);
    IncrementAfterWrap(t.seqNum + j);
  }

  /** The first frame after start-up carries 1. */
  lemma FirstSequenceNumber(ks: seq<PktType>)
    requires ks != []
    ensures GenFrames(ks, InitialTables)[0].seqNum == 1
  {
  }
}
