/** IPv4 headers and datagrams on the wire, and TCP segments inside them. */
module Ipv4Wire {
  import opened Numbers
  import opened Segments
  import opened NetParsers
  import opened Checksums
  import TcpWire

  const HEADER_LENGTH: nat := 20

  datatype Ipv4Header = Ipv4Header(
    ver: byte,
    hlen: byte,
    tos: byte,
    len: u16,
    id: u16,
    df: bool,
    mf: bool,
    offset: u16,
    ttl: byte,
    proto: byte,
    cksum: u16,
    src: u32,
    dst: u32)
  {
    /** In 16 bits, as the original computes it. */
    function PayloadLength(): u16 {
      (len - 4 * hlen) % TWO16
    }

    /** What the addresses, the protocol and the length add to the TCP checksum. */
    function PseudoSum(): u32 {
      src / TWO16 + src % TWO16 + dst / TWO16 + dst % TWO16 + proto + PayloadLength()
    }
  }

  const DEFAULT_HEADER := Ipv4Header(4, 5, 0, 0, 0, true, false, 0, 128, 6, 0, 0, 0)

  datatype Datagram = Datagram(header: Ipv4Header, payload: seq<byte>)

  function FragmentField(h: Ipv4Header): u16 {
    0x4000 * Bit(h.df) + 0x2000 * Bit(h.mf) + h.offset % 0x2000
  }

  function FirstByte(h: Ipv4Header): byte {
    (h.ver * 16 + h.hlen % 16) % 256
  }

  /** The ten bytes before the checksum, and `rest`. */
  function EncodeFront(h: Ipv4Header, rest: seq<byte>): seq<byte> {
    BigEndian(FirstByte(h), 1) + (BigEndian(h.tos, 1) + (BigEndian(h.len, 2) + (BigEndian(h.id, 2)
      + (BigEndian(FragmentField(h), 2) + (BigEndian(h.ttl, 1) + (BigEndian(h.proto, 1) + rest))))))
  }

  /** The addresses, the padding up to the header length, and `rest`. */
  function EncodeTail(h: Ipv4Header, rest: seq<byte>): seq<byte> {
    BigEndian(h.src, 4) + (BigEndian(h.dst, 4)
      + (TcpWire.Zeros(if h.hlen < 5 then 0 else 4 * h.hlen - HEADER_LENGTH) + rest))
  }

  function Encode(h: Ipv4Header, rest: seq<byte>): seq<byte> {
    EncodeFront(h, BigEndian(h.cksum, 2) + EncodeTail(h, rest))
  }

  /** Only version 4 headers of at least the minimum length can be written. */
  predicate Writable(h: Ipv4Header) {
    h.ver == 4 && 4 * h.hlen >= HEADER_LENGTH
  }

  method SerializeHeader(h: Ipv4Header) returns (r: TcpWire.SerializeResult)
    ensures r == if Writable(h) then TcpWire.Bytes(Encode(h, [])) else TcpWire.Refused
  {
    hide BigEndian;
    hide TcpWire.Zeros;
    hide FirstByte;
    hide FragmentField;
    if h.ver != 4 {
      return TcpWire.Refused;
    }
    if 4 * h.hlen < HEADER_LENGTH {
      return TcpWire.Refused;
    }
    var ret := UnparseInt([], FirstByte(h), 1);
    ret := UnparseInt(ret, h.tos, 1);
    ret := UnparseInt(ret, h.len, 2);
    ret := UnparseInt(ret, h.id, 2);
    ret := UnparseInt(ret, FragmentField(h), 2);
    ret := UnparseInt(ret, h.ttl, 1);
    ret := UnparseInt(ret, h.proto, 1);
    var front := ret;
    assert forall rest :: front + rest == EncodeFront(h, rest);
    ret := UnparseInt(ret, h.cksum, 2);
    ret := UnparseInt(ret, h.src, 4);
    ret := UnparseInt(ret, h.dst, 4);
    ret := ret + TcpWire.Zeros(4 * h.hlen - |ret|);
    assert ret == front + (BigEndian(h.cksum, 2) + EncodeTail(h, []));
    return TcpWire.Bytes(ret);
  }

  // ------------------------------------------------------------------
  // Parsing

  datatype HeaderParse = HeaderParse(header: Ipv4Header, parser: Parser, result: ParseResult)

  datatype FieldsParse = FieldsParse(header: Ipv4Header, parser: Parser)

  /** The twenty fixed bytes. */
  function ParseFields(p: Parser): FieldsParse {
    var (first, p1) := TakeU8(p);
    var (tos, p2) := TakeU8(p1);
    var (len, p3) := TakeU16(p2);
    var (id, p4) := TakeU16(p3);
    var (fo, p5) := TakeU16(p4);
    var (ttl, p6) := TakeU8(p5);
    var (proto, p7) := TakeU8(p6);
    var (cksum, p8) := TakeU16(p7);
    var (src, p9) := TakeU32(p8);
    var (dst, p10) := TakeU32(p9);
    FieldsParse(
      Ipv4Header(first / 16, first % 16, tos, len, id, TcpWire.HasBit(fo, 0x4000), TcpWire.HasBit(fo, 0x2000),
                 fo % 0x2000, ttl, proto, cksum, src, dst), p10)
  }

  /** `h0` is the header before the call: a string that is too short leaves it unchanged. */
  function ParseHeader(h0: Ipv4Header, p: Parser): HeaderParse {
    if |p.buffer| < HEADER_LENGTH then HeaderParse(h0, p, PacketTooShort)
    else
      var f := ParseFields(p);
      var h := f.header;
      if |p.buffer| < 4 * h.hlen then HeaderParse(h, f.parser, PacketTooShort)
      else if h.ver != 4 then HeaderParse(h, f.parser, WrongIPVersion)
      else if h.hlen < 5 then HeaderParse(h, f.parser, HeaderTooShort)
      else if |p.buffer| != h.len then HeaderParse(h, f.parser, TruncatedPacket)
      else
        var q := Skip(f.parser, h.hlen * 4 - HEADER_LENGTH);
        if q.error != NoError then HeaderParse(h, q, q.error)
        else if Complement(ByteSum(p.buffer[..4 * h.hlen], false)) != 0 then HeaderParse(h, q, BadChecksum)
        else HeaderParse(h, q, NoError)
  }

  method ParseIpv4Fields(p: NetParser) returns (h: Ipv4Header)
    modifies p
    ensures FieldsParse(h, p.View()) == ParseFields(old(p.View()))
  {
    hide Take;
    hide TakeU8;
    hide TakeU16;
    hide TakeU32;
    hide TcpWire.HasBit;
    var first := p.ParseU8();
    var tos := p.ParseU8();
    var len := p.ParseU16();
    var id := p.ParseU16();
    var fo := p.ParseU16();
    var ttl := p.ParseU8();
    var proto := p.ParseU8();
    var cksum := p.ParseU16();
    var src := p.ParseU32();
    var dst := p.ParseU32();
    h := Ipv4Header(first / 16, first % 16, tos, len, id, TcpWire.HasBit(fo, 0x4000), TcpWire.HasBit(fo, 0x2000),
                    fo % 0x2000, ttl, proto, cksum, src, dst);
  }

  method ChecksumOf(data: seq<byte>) returns (v: u16)
    requires |data| <= 65535
    ensures v == Complement(ByteSum(data, false))
  {
    var check := new InternetChecksum(0);
    check.Add(data);
    TcpWire.SumFits(data, 0);
    v := check.Value();
  }

  method ParseIpv4Header(h0: Ipv4Header, p: NetParser) returns (h: Ipv4Header, result: ParseResult)
    modifies p
    ensures HeaderParse(h, p.View(), result) == ParseHeader(h0, old(p.View()))
  {
    hide ParseFields;
    hide Complement;
    hide Skip;
    var original := p.buffer;
    h := h0;
    if |original| < HEADER_LENGTH {
      return h, PacketTooShort;
    }
    h := ParseIpv4Fields(p);
    if |original| < 4 * h.hlen {
      return h, PacketTooShort;
    }
    if h.ver != 4 {
      return h, WrongIPVersion;
    }
    if h.hlen < 5 {
      return h, HeaderTooShort;
    }
    if |original| != h.len {
      return h, TruncatedPacket;
    }
    p.RemovePrefix(h.hlen * 4 - HEADER_LENGTH);
    if p.error != NoError {
      return h, p.error;
    }
    var v := ChecksumOf(original[..4 * h.hlen]);
    if v != 0 {
      return h, BadChecksum;
    }
    return h, NoError;
  }

  lemma FragmentRoundTrip(h: Ipv4Header)
    requires h.offset < 0x2000
    ensures TcpWire.HasBit(FragmentField(h), 0x4000) == h.df
    ensures TcpWire.HasBit(FragmentField(h), 0x2000) == h.mf
    ensures FragmentField(h) % 0x2000 == h.offset
  {
  }

  lemma FirstByteRoundTrip(h: Ipv4Header)
    requires Writable(h) && h.hlen <= 15
    ensures FirstByte(h) / 16 == h.ver && FirstByte(h) % 16 == h.hlen
  {
  }

  lemma FieldsRoundTrip(h: Ipv4Header, rest: seq<byte>)
    requires Writable(h) && h.hlen <= 15 && h.offset < 0x2000
    ensures ParseFields(Parser(Encode(h, rest), NoError))
         == FieldsParse(h, Parser(TcpWire.Zeros(4 * h.hlen - HEADER_LENGTH) + rest, NoError))
  {
    hide BigEndian;
    hide Take;
    hide TakeU8;
    hide TakeU16;
    hide TakeU32;
    hide TcpWire.Zeros;
    hide TcpWire.HasBit;
    hide FragmentField;
    hide FirstByte;
    Capacities();
    var tail := TcpWire.Zeros(4 * h.hlen - HEADER_LENGTH) + rest;
    var r9 := BigEndian(h.dst, 4) + tail;
    var r8 := BigEndian(h.src, 4) + r9;
    var r7 := BigEndian(h.cksum, 2) + r8;
    var r6 := BigEndian(h.proto, 1) + r7;
    var r5 := BigEndian(h.ttl, 1) + r6;
    var r4 := BigEndian(FragmentField(h), 2) + r5;
    var r3 := BigEndian(h.id, 2) + r4;
    var r2 := BigEndian(h.len, 2) + r3;
    var r1 := BigEndian(h.tos, 1) + r2;
    TakeEncoded(FirstByte(h), 1, r1);
    TakeEncoded(h.tos, 1, r2);
    TakeEncoded(h.len, 2, r3);
    TakeEncoded(h.id, 2, r4);
    TakeEncoded(FragmentField(h), 2, r5);
    TakeEncoded(h.ttl, 1, r6);
    TakeEncoded(h.proto, 1, r7);
    TakeEncoded(h.cksum, 2, r8);
    TakeEncoded(h.src, 4, r9);
    TakeEncoded(h.dst, 4, tail);
    FragmentRoundTrip(h);
    FirstByteRoundTrip(h);
  }

  // ------------------------------------------------------------------
  // Datagrams

  function Checksummed(h: Ipv4Header): Ipv4Header {
    h.(cksum := Complement(ByteSum(Encode(h.(cksum := 0), []), false)))
  }

  datatype DatagramParse = DatagramParse(dgram: Datagram, result: ParseResult)

  /** The header parser's verdict is not looked at, only the payload's length and the parser's error. */
  function ParseDatagram(buffer: seq<byte>): DatagramParse {
    var hp := ParseHeader(DEFAULT_HEADER, Parser(buffer, NoError));
    DatagramParse(Datagram(hp.header, hp.parser.buffer),
                  if |hp.parser.buffer| != hp.header.PayloadLength() then PacketTooShort else hp.parser.error)
  }

  method ParseIpv4Datagram(buffer: seq<byte>) returns (r: DatagramParse)
    ensures r == ParseDatagram(buffer)
  {
    hide ParseHeader;
    var p := new NetParser(buffer);
    var h, _ := ParseIpv4Header(DEFAULT_HEADER, p);
    if |p.buffer| != h.PayloadLength() {
      return DatagramParse(Datagram(h, p.buffer), PacketTooShort);
    }
    return DatagramParse(Datagram(h, p.buffer), p.error);
  }

  method SerializeDatagram(d: Datagram) returns (r: TcpWire.SerializeResult)
    ensures r == if |d.payload| == d.header.PayloadLength() && Writable(d.header)
                 then TcpWire.Bytes(Encode(Checksummed(d.header), d.payload)) else TcpWire.Refused
  {
    hide Encode;
    hide ByteSum;
    hide Fold;
    if |d.payload| != d.header.PayloadLength() {
      return TcpWire.Refused;
    }
    var header := d.header.(cksum := 0);
    var zero := SerializeHeader(header);
    if zero.Refused? {
      return TcpWire.Refused;
    }
    EncodeLength(header, []);
    var cksum := ChecksumOf(zero.bytes);
    header := header.(cksum := cksum);
    var bytes := SerializeHeader(header);
    EncodeSplits(header, d.payload);
    return TcpWire.Bytes(bytes.bytes + d.payload);
  }

  lemma EncodeSplits(h: Ipv4Header, rest: seq<byte>)
    ensures Encode(h, []) + rest == Encode(h, rest)
  {
    hide BigEndian;
    hide TcpWire.Zeros;
  }

  lemma FrontSplits(h: Ipv4Header, rest: seq<byte>)
    ensures EncodeFront(h, rest) == EncodeFront(h, []) + rest
    ensures |EncodeFront(h, [])| == 10
  {
    hide BigEndian;
  }

  lemma EncodeLength(h: Ipv4Header, rest: seq<byte>)
    requires h.hlen >= 5
    ensures |Encode(h, rest)| == 4 * h.hlen + |rest|
  {
    hide BigEndian;
    hide EncodeFront;
    FrontSplits(h, BigEndian(h.cksum, 2) + EncodeTail(h, rest));
  }

  lemma FrontIgnoresChecksum(h: Ipv4Header, c: u16)
    ensures EncodeFront(h.(cksum := c), []) == EncodeFront(h.(cksum := 0), [])
  {
    hide BigEndian;
  }

  lemma FieldAddsItself(h: Ipv4Header, c: u16)
    ensures ByteSum(Encode(h.(cksum := c), []), false) == ByteSum(Encode(h.(cksum := 0), []), false) + c
  {
    hide ByteSum;
    hide BigEndian;
    hide EncodeFront;
    var h0, hc := h.(cksum := 0), h.(cksum := c);
    FrontIgnoresChecksum(h, c);
    FrontSplits(h0, BigEndian(0, 2) + EncodeTail(h0, []));
    FrontSplits(hc, BigEndian(c, 2) + EncodeTail(hc, []));
    TcpWire.WordAtEvenPlace(EncodeFront(h0, []), 0, EncodeTail(h0, []));
    TcpWire.WordAtEvenPlace(EncodeFront(h0, []), c, EncodeTail(h0, []));
  }

  /** A datagram whose length field tells the truth and whose fields fit their bits. */
  predicate WellSized(d: Datagram) {
    && Writable(d.header) && d.header.hlen <= 15 && d.header.offset < 0x2000
    && d.header.len == 4 * d.header.hlen + |d.payload|
  }

  lemma HeaderChecks(d: Datagram)
    requires WellSized(d)
    ensures var h := Checksummed(d.header);
      ParseHeader(DEFAULT_HEADER, Parser(Encode(h, d.payload), NoError))
        == HeaderParse(h, Parser(d.payload, NoError), NoError)
  {
    hide ByteSum;
    hide Fold;
    hide Encode;
    hide ParseFields;
    hide TcpWire.Zeros;
    hide Skip;
    var h := Checksummed(d.header);
    EncodeLength(h, []);
    EncodeLength(h, d.payload);
    EncodeSplits(h, d.payload);
    assert Encode(h, d.payload)[..4 * h.hlen] == Encode(h, []);
    FieldsRoundTrip(h, d.payload);
    TcpWire.SkipZeros(4 * h.hlen - HEADER_LENGTH, d.payload);
    FieldAddsItself(d.header, h.cksum);
    ChecksumCompletes(ByteSum(Encode(d.header.(cksum := 0), []), false));
  }

  /** The round trip: a datagram written with its checksum passes every check and comes back unchanged. */
  lemma DatagramRoundTrip(d: Datagram)
    requires WellSized(d)
    ensures var h := Checksummed(d.header);
      && ParseDatagram(Encode(h, d.payload)) == DatagramParse(Datagram(h, d.payload), NoError)
      && ParseHeader(DEFAULT_HEADER, Parser(Encode(h, d.payload), NoError)).result == NoError
  {
    hide ParseHeader;
    hide Encode;
    HeaderChecks(d);
  }

  // ------------------------------------------------------------------
  // Exactly which byte strings are accepted

  /** The layout of the header in section 3.1 of RFC 791, for any string that has the twenty fixed bytes. */
  lemma HeaderLayout(buffer: seq<byte>)
    requires |buffer| >= HEADER_LENGTH
    ensures var f := ParseFields(Parser(buffer, NoError));
      var h := f.header;
      && f.parser == Parser(buffer[HEADER_LENGTH..], NoError)
      && h.ver == Field(buffer, 0, 1) / 16 && h.hlen == Field(buffer, 0, 1) % 16
      && h.tos == Field(buffer, 1, 1) && h.len == Field(buffer, 2, 2) && h.id == Field(buffer, 4, 2)
      && h.df == (Field(buffer, 6, 2) / 0x4000 % 2 == 1) && h.mf == (Field(buffer, 6, 2) / 0x2000 % 2 == 1)
      && h.offset == Field(buffer, 6, 2) % 0x2000
      && h.ttl == Field(buffer, 8, 1) && h.proto == Field(buffer, 9, 1) && h.cksum == Field(buffer, 10, 2)
      && h.src == Field(buffer, 12, 4) && h.dst == Field(buffer, 16, 4)
  {
    hide Take;
    hide Field;
    assert buffer == buffer[0..];
    TakenAt(buffer, 0, 1);
    TakenAt(buffer, 1, 1);
    TakenAt(buffer, 2, 2);
    TakenAt(buffer, 4, 2);
    TakenAt(buffer, 6, 2);
    TakenAt(buffer, 8, 1);
    TakenAt(buffer, 9, 1);
    TakenAt(buffer, 10, 2);
    TakenAt(buffer, 12, 4);
    TakenAt(buffer, 16, 4);
  }

  function AnnouncedLength(buffer: seq<byte>): nat
    requires |buffer| >= HEADER_LENGTH
  {
    Field(buffer, 2, 2)
  }

  /** In units of four bytes, from the low half of the first byte. */
  function AnnouncedHeader(buffer: seq<byte>): nat
    requires |buffer| >= HEADER_LENGTH
  {
    Field(buffer, 0, 1) % 16
  }

  /** Version 4, a whole header of at least the minimum length, and the total length announced. */
  predicate WellAnnounced(buffer: seq<byte>)
    requires |buffer| >= HEADER_LENGTH
  {
    && Field(buffer, 0, 1) / 16 == 4
    && HEADER_LENGTH <= 4 * AnnouncedHeader(buffer) <= |buffer|
    && |buffer| == AnnouncedLength(buffer)
  }

  /**
   * A byte string is accepted exactly if the twenty fixed bytes are there and it is announced well;
   * or, if not, when what follows the fixed bytes happens to be as long as the announced payload in 16
   * bits. The header checksum plays no part.
   */
  lemma AcceptsExactly(buffer: seq<byte>)
    ensures ParseDatagram(buffer).result == NoError <==>
              && |buffer| >= HEADER_LENGTH
              && (|| WellAnnounced(buffer)
                  || |buffer| - HEADER_LENGTH == (AnnouncedLength(buffer) - 4 * AnnouncedHeader(buffer)) % TWO16)
  {
    hide ParseHeader;
    if |buffer| < HEADER_LENGTH {
      ShortHeader(buffer);
    } else {
      RestOf(buffer);
    }
  }

  lemma ShortHeader(buffer: seq<byte>)
    requires |buffer| < HEADER_LENGTH
    ensures ParseHeader(DEFAULT_HEADER, Parser(buffer, NoError)).header == DEFAULT_HEADER
    ensures ParseHeader(DEFAULT_HEADER, Parser(buffer, NoError)).parser.buffer == buffer
  {
  }

  /** What is left as the payload: everything behind the header, or behind the fixed bytes alone. */
  lemma RestOf(buffer: seq<byte>)
    requires |buffer| >= HEADER_LENGTH
    ensures var hp := ParseHeader(DEFAULT_HEADER, Parser(buffer, NoError));
      && hp.header.hlen == AnnouncedHeader(buffer) && hp.header.len == AnnouncedLength(buffer)
      && hp.parser.error == NoError
      && |hp.parser.buffer| == |buffer| - (if WellAnnounced(buffer) then 4 * hp.header.hlen else HEADER_LENGTH)
  {
    hide ParseFields;
    hide ByteSum;
    hide Complement;
    hide Field;
    HeaderLayout(buffer);
  }

  /** A true datagram with any checksum field is accepted, though the header parser reports a wrong one. */
  lemma AnyChecksumIsAccepted(d: Datagram, c: u16)
    requires WellSized(d)
    ensures var h := d.header.(cksum := c);
      && ParseDatagram(Encode(h, d.payload)) == DatagramParse(Datagram(h, d.payload), NoError)
      && ParseHeader(DEFAULT_HEADER, Parser(Encode(h, d.payload), NoError)).result ==
           (if Complement(ByteSum(Encode(h, []), false)) == 0 then NoError else BadChecksum)
  {
    hide ByteSum;
    hide Fold;
    hide Encode;
    hide ParseFields;
    hide TcpWire.Zeros;
    hide Skip;
    var h := d.header.(cksum := c);
    EncodeLength(h, []);
    EncodeLength(h, d.payload);
    EncodeSplits(h, d.payload);
    assert Encode(h, d.payload)[..4 * h.hlen] == Encode(h, []);
    FieldsRoundTrip(h, d.payload);
    TcpWire.SkipZeros(4 * h.hlen - HEADER_LENGTH, d.payload);
  }

  /** Of two checksum fields with different remainders modulo 65535 one is wrong, and both are accepted. */
  lemma WrongChecksumIsAccepted(d: Datagram)
    requires WellSized(d)
    ensures exists c: u16 :: var bytes := Encode(d.header.(cksum := c), d.payload);
      && ParseHeader(DEFAULT_HEADER, Parser(bytes, NoError)).result == BadChecksum
      && ParseDatagram(bytes).result == NoError
  {
    hide Encode;
    hide ByteSum;
    hide Fold;
    hide ParseHeader;
    hide ParseDatagram;
    AnyChecksumIsAccepted(d, 1);
    AnyChecksumIsAccepted(d, 2);
    FieldAddsItself(d.header, 1);
    FieldAddsItself(d.header, 2);
    var sum := ByteSum(Encode(d.header.(cksum := 0), []), false);
    AcceptedSums(sum + 1);
    AcceptedSums(sum + 2);
    SmallShift(sum + 1, sum + 2);
    var c: u16 := if Complement(sum + 1) != 0 then 1 else 2;
    assert ParseHeader(DEFAULT_HEADER, Parser(Encode(d.header.(cksum := c), d.payload), NoError)).result == BadChecksum;
  }

  // ------------------------------------------------------------------
  // The pseudo-header

  /** The pseudo-header of section 3.1 of RFC 793: addresses, a zero, the protocol and the length. */
  function PseudoHeader(h: Ipv4Header): seq<byte> {
    BigEndian(h.src, 4) + (BigEndian(h.dst, 4) + (BigEndian(h.proto, 2) + BigEndian(h.PayloadLength(), 2)))
  }

  lemma LongSum(x: u32)
    ensures ByteSum(BigEndian(x, 4), false) == x / TWO16 + x % TWO16
  {
    hide ByteSum;
    var high, low := x / TWO16, x % TWO16;
    assert BigEndian(x, 4) == BigEndian(x / 256 / 256, 2) + [x / 256 % 256] + [x % 256];
    assert BigEndian(low, 2) == BigEndian(low / 256 / 256, 0) + [low / 256 % 256] + [low % 256];
    assert x / 256 / 256 == high && low / 256 % 256 == x / 256 % 256 && low % 256 == x % 256;
    assert BigEndian(x, 4) == BigEndian(high, 2) + BigEndian(low, 2);
    SumConcat(BigEndian(high, 2), BigEndian(low, 2), false);
    TcpWire.WordSum(high);
    TcpWire.WordSum(low);
  }

  /**
   * What the checksum of a segment starts from is the sum over the twelve bytes of the pseudo-header, so
   * that the whole is the sum over the pseudo-header followed by the segment.
   */
  lemma PseudoSumIsExact(h: Ipv4Header, segment: seq<byte>)
    ensures |PseudoHeader(h)| == 12
    ensures h.PseudoSum() == ByteSum(PseudoHeader(h), false)
    ensures h.PseudoSum() + ByteSum(segment, false) == ByteSum(PseudoHeader(h) + segment, false)
  {
    hide ByteSum;
    hide BigEndian;
    var tail := BigEndian(h.proto, 2) + BigEndian(h.PayloadLength(), 2);
    LongSum(h.src);
    LongSum(h.dst);
    TcpWire.WordSum(h.proto);
    TcpWire.WordSum(h.PayloadLength());
    SumConcat(BigEndian(h.src, 4), BigEndian(h.dst, 4) + tail, false);
    SumConcat(BigEndian(h.dst, 4), tail, false);
    SumConcat(BigEndian(h.proto, 2), BigEndian(h.PayloadLength(), 2), false);
    SumConcat(PseudoHeader(h), segment, false);
  }

  lemma SameRest(h: Ipv4Header)
    ensures Checksummed(h) == h.(cksum := Checksummed(h).cksum)
    ensures Checksummed(h).PseudoSum() == h.PseudoSum()
    ensures h.PseudoSum() <= 0x10_0000
  {
    hide Encode;
    hide ByteSum;
  }

  lemma SameRestOfSegment(seg: Segment, pseudo: nat)
    ensures var s := TcpWire.Checksummed(seg, pseudo); s.header.doff == seg.header.doff && s.payload == seg.payload
  {
    hide TcpWire.Encode;
    hide ByteSum;
  }

  /** A segment, inside a datagram, over the wire and back: the pseudo-header survives the trip as well. */
  lemma SegmentInDatagramRoundTrip(h: Ipv4Header, seg: Segment)
    requires 5 <= seg.header.doff <= 15
    requires WellSized(Datagram(h, TcpWire.Encode(TcpWire.Checksummed(seg, h.PseudoSum()).header, seg.payload)))
    ensures var s := TcpWire.Checksummed(seg, h.PseudoSum());
      var bytes := Encode(Checksummed(h), TcpWire.Encode(s.header, s.payload));
      var d := ParseDatagram(bytes);
      && d.result == NoError
      && TcpWire.ParseSegment(d.dgram.payload, d.dgram.header.PseudoSum()) == TcpWire.Parsed(s, NoError)
  {
    hide TcpWire.Encode;
    hide Encode;
    hide ParseDatagram;
    hide TcpWire.ParseSegment;
    hide TcpWire.Checksummed;
    hide TcpWire.SegmentSum;
    hide Checksummed;
    SameRest(h);
    SameRestOfSegment(seg, h.PseudoSum());
    var s := TcpWire.Checksummed(seg, h.PseudoSum());
    DatagramRoundTrip(Datagram(h, TcpWire.Encode(s.header, s.payload)));
    TcpWire.EncodeLength(s.header, seg.payload);
    TcpWire.SegmentRoundTrip(seg, h.PseudoSum());
  }
}
