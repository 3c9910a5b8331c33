/** TCP headers and segments on the wire. */
module TcpWire {
  import opened Numbers
  import opened Segments
  import opened NetParsers
  import opened Checksums

  const HEADER_LENGTH: nat := 20

  function FlagsByte(h: TcpHeader): byte {
    32 * Bit(h.urg) + 16 * Bit(h.ack) + 8 * Bit(h.psh) + 4 * Bit(h.rst) + 2 * Bit(h.syn) + Bit(h.fin)
  }

  /** The bit of weight `w`. */
  predicate HasBit(b: nat, w: nat)
    requires w > 0
  {
    b / w % 2 == 1
  }

  function Zeros(n: nat): (z: seq<byte>)
    ensures |z| == n
  {
    seq(n, _ => 0)
  }

  /** The fields behind the checksum, the padding up to the header length, and `rest`. */
  function EncodeTail(h: TcpHeader, rest: seq<byte>): seq<byte> {
    BigEndian(h.uptr, 2) + (Zeros(if h.doff < 5 then 0 else 4 * h.doff - HEADER_LENGTH) + rest)
  }

  /** The sixteen bytes before the checksum, and `rest`. */
  function EncodeFront(h: TcpHeader, rest: seq<byte>): seq<byte> {
    BigEndian(h.sport, 2) + (BigEndian(h.dport, 2) + (BigEndian(h.seqno, 4) + (BigEndian(h.ackno, 4)
      + (BigEndian(h.doff * 16 % 256, 1) + (BigEndian(FlagsByte(h), 1) + (BigEndian(h.win, 2) + rest))))))
  }

  /** A header, followed by `rest`. */
  function Encode(h: TcpHeader, rest: seq<byte>): seq<byte> {
    EncodeFront(h, BigEndian(h.cksum, 2) + EncodeTail(h, rest))
  }

  datatype SerializeResult = Bytes(bytes: seq<byte>) | Refused

  /** Writes the fields one after the other; a header shorter than the minimum is refused. */
  method SerializeHeader(h: TcpHeader) returns (r: SerializeResult)
    ensures r == if h.doff < 5 then Refused else Bytes(Encode(h, []))
  {
    hide BigEndian;
    hide Zeros;
    if h.doff < 5 {
      return Refused;
    }
    var ret := UnparseInt([], h.sport, 2);
    ret := UnparseInt(ret, h.dport, 2);
    ret := UnparseInt(ret, h.seqno, 4);
    ret := UnparseInt(ret, h.ackno, 4);
    ret := UnparseInt(ret, h.doff * 16 % 256, 1);
    ret := UnparseInt(ret, FlagsByte(h), 1);
    ret := UnparseInt(ret, h.win, 2);
    var front := ret;
    assert forall rest :: front + rest == EncodeFront(h, rest);
    ret := UnparseInt(ret, h.cksum, 2);
    ret := UnparseInt(ret, h.uptr, 2);
    ret := ret + Zeros(4 * h.doff - |ret|);
    assert ret == front + (BigEndian(h.cksum, 2) + EncodeTail(h, []));
    return Bytes(ret);
  }

  // ------------------------------------------------------------------
  // Parsing

  datatype HeaderParse = HeaderParse(header: TcpHeader, parser: Parser, result: ParseResult)

  function WithFlags(h: TcpHeader, b: byte): TcpHeader {
    h.(urg := HasBit(b, 32), ack := HasBit(b, 16), psh := HasBit(b, 8),
       rst := HasBit(b, 4), syn := HasBit(b, 2), fin := HasBit(b, 1))
  }

  /** The fields in order; then the rest of the header, unless it claims to be too short. */
  function ParseHeader(p: Parser): HeaderParse {
    var (sport, p1) := TakeU16(p);
    var (dport, p2) := TakeU16(p1);
    var (seqno, p3) := TakeU32(p2);
    var (ackno, p4) := TakeU32(p3);
    var (offset, p5) := TakeU8(p4);
    var (flags, p6) := TakeU8(p5);
    var (win, p7) := TakeU16(p6);
    var (cksum, p8) := TakeU16(p7);
    var (uptr, p9) := TakeU16(p8);
    var doff: byte := offset / 16;
    var plain := TcpHeader(sport, dport, seqno, ackno, doff, false, false, false, false, false, false, win, cksum, uptr);
    var h := WithFlags(plain, flags);
    if doff < 5 then HeaderParse(h, p9, HeaderTooShort)
    else
      var p10 := Skip(p9, doff * 4 - HEADER_LENGTH);
      HeaderParse(h, p10, p10.error)
  }

  method ParseTcpHeader(p: NetParser) returns (h: TcpHeader, result: ParseResult)
    modifies p
    ensures HeaderParse(h, p.View(), result) == ParseHeader(old(p.View()))
  {
    hide Take;
    hide TakeU8;
    hide TakeU16;
    hide TakeU32;
    hide HasBit;
    h := DEFAULT_HEADER;
    var sport := p.ParseU16();
    var dport := p.ParseU16();
    var seqno := p.ParseU32();
    var ackno := p.ParseU32();
    var offset := p.ParseU8();
    var flags := p.ParseU8();
    var win := p.ParseU16();
    var cksum := p.ParseU16();
    var uptr := p.ParseU16();
    h := TcpHeader(sport, dport, seqno, ackno, offset / 16, false, false, false, false, false, false, win, cksum, uptr);
    h := WithFlags(h, flags);
    if h.doff < 5 {
      return h, HeaderTooShort;
    }
    p.RemovePrefix(h.doff * 4 - HEADER_LENGTH);
    if p.error != NoError {
      return h, p.error;
    }
    return h, NoError;
  }

  lemma FlagsRoundTrip(h: TcpHeader, h': TcpHeader)
    requires h' == h.(urg := false, ack := false, psh := false, rst := false, syn := false, fin := false)
    ensures WithFlags(h', FlagsByte(h)) == h
  {
  }

  lemma SkipZeros(n: nat, rest: seq<byte>)
    ensures Skip(Parser(Zeros(n) + rest, NoError), n) == Parser(rest, NoError)
  {
    assert (Zeros(n) + rest)[n..] == rest;
  }

  /** Parsing a written header gives back its fields and leaves what followed it. */
  lemma HeaderRoundTrip(h: TcpHeader, rest: seq<byte>)
    requires 5 <= h.doff <= 15
    ensures ParseHeader(Parser(Encode(h, rest), NoError)) == HeaderParse(h, Parser(rest, NoError), NoError)
  {
    hide BigEndian;
    hide Take;
    hide TakeU8;
    hide TakeU16;
    hide TakeU32;
    hide Zeros;
    hide WithFlags;
    hide FlagsByte;
    hide Skip;
    Capacities();
    var tail := Zeros(4 * h.doff - HEADER_LENGTH) + rest;
    var r8 := BigEndian(h.uptr, 2) + tail;
    var r7 := BigEndian(h.cksum, 2) + r8;
    var r6 := BigEndian(h.win, 2) + r7;
    var r5 := BigEndian(FlagsByte(h), 1) + r6;
    var r4 := BigEndian(h.doff * 16 % 256, 1) + r5;
    var r3 := BigEndian(h.ackno, 4) + r4;
    var r2 := BigEndian(h.seqno, 4) + r3;
    var r1 := BigEndian(h.dport, 2) + r2;
    TakeEncoded(h.sport, 2, r1);
    TakeEncoded(h.dport, 2, r2);
    TakeEncoded(h.seqno, 4, r3);
    TakeEncoded(h.ackno, 4, r4);
    TakeEncoded(h.doff * 16 % 256, 1, r5);
    TakeEncoded(FlagsByte(h), 1, r6);
    TakeEncoded(h.win, 2, r7);
    TakeEncoded(h.cksum, 2, r8);
    TakeEncoded(h.uptr, 2, tail);
    SkipZeros(4 * h.doff - HEADER_LENGTH, rest);
    FlagsRoundTrip(h, h.(urg := false, ack := false, psh := false, rst := false, syn := false, fin := false));
  }

  // ------------------------------------------------------------------
  // Segments

  /** The sum that the checksum field has to complete, and the segment with the field filled in. */
  function SegmentSum(seg: Segment, pseudo: nat): nat {
    pseudo + ByteSum(Encode(seg.header.(cksum := 0), seg.payload), false)
  }

  function Checksummed(seg: Segment, pseudo: nat): Segment {
    seg.(header := seg.header.(cksum := Complement(SegmentSum(seg, pseudo) % TWO32)))
  }

  datatype SegmentParse = ChecksumFailed | Parsed(seg: Segment, result: ParseResult)

  /** The header parser's own verdict is not looked at, only the parser's error. */
  function ParseSegment(buffer: seq<byte>, pseudo: nat): SegmentParse {
    if Complement((pseudo + ByteSum(buffer, false)) % TWO32) != 0 then ChecksumFailed
    else
      var hp := ParseHeader(Parser(buffer, NoError));
      Parsed(Segment(hp.header, hp.parser.buffer), hp.parser.error)
  }

  method SerializeSegment(seg: Segment, pseudo: u32) returns (r: SerializeResult)
    ensures r == if seg.header.doff < 5 then Refused
                 else Bytes(Encode(Checksummed(seg, pseudo).header, seg.payload))
  {
    hide Encode;
    hide ByteSum;
    hide Fold;
    var header := seg.header.(cksum := 0);
    var check := new InternetChecksum(pseudo);
    var bytes := SerializeHeader(header);
    if bytes.Refused? {
      return Refused;
    }
    check.Add(bytes.bytes);
    check.Add(seg.payload);
    EncodeSplits(header, seg.payload);
    SumConcat(Encode(header, []), seg.payload, false);
    AddThenWrap(pseudo + ByteSum(Encode(header, []), false), ByteSum(seg.payload, ParityAfter(Encode(header, []), false)));
    var cksum := check.Value();
    header := header.(cksum := cksum);
    bytes := SerializeHeader(header);
    EncodeSplits(header, seg.payload);
    return Bytes(bytes.bytes + seg.payload);
  }

  lemma EncodeSplits(h: TcpHeader, rest: seq<byte>)
    ensures Encode(h, []) + rest == Encode(h, rest)
  {
    hide BigEndian;
    hide Zeros;
  }

  method ParseTcpSegment(buffer: seq<byte>, pseudo: u32) returns (r: SegmentParse)
    ensures r == ParseSegment(buffer, pseudo)
  {
    hide ByteSum;
    hide Fold;
    hide ParseHeader;
    var check := new InternetChecksum(pseudo);
    check.Add(buffer);
    var v := check.Value();
    if v != 0 {
      return ChecksumFailed;
    }
    var p := new NetParser(buffer);
    var h, _ := ParseTcpHeader(p);
    return Parsed(Segment(h, p.buffer), p.error);
  }

  // ------------------------------------------------------------------
  // The checksummed round trip

  lemma FrontSplits(h: TcpHeader, rest: seq<byte>)
    ensures EncodeFront(h, rest) == EncodeFront(h, []) + rest
    ensures |EncodeFront(h, [])| == 16
  {
    hide BigEndian;
  }

  lemma EncodeLength(h: TcpHeader, rest: seq<byte>)
    requires h.doff >= 5
    ensures |Encode(h, rest)| == 4 * h.doff + |rest|
  {
    hide BigEndian;
    hide EncodeFront;
    FrontSplits(h, BigEndian(h.cksum, 2) + EncodeTail(h, rest));
  }

  lemma WordSum(c: u16)
    ensures ByteSum(BigEndian(c, 2), false) == c
  {
    assert BigEndian(c, 2) == BigEndian(c / 256, 1) + [c % 256];
    assert BigEndian(c / 256, 1) == BigEndian(c / 256 / 256, 0) + [c / 256 % 256];
    SumSnoc(BigEndian(c / 256, 1), c % 256, false);
  }

  /** A 16-bit word at an even place adds its own value. */
  lemma WordAtEvenPlace(front: seq<byte>, c: u16, tail: seq<byte>)
    requires |front| % 2 == 0
    ensures ByteSum(front + (BigEndian(c, 2) + tail), false)
         == ByteSum(front, false) + c + ByteSum(tail, false)
  {
    hide ByteSum;
    hide BigEndian;
    SumConcat(front, BigEndian(c, 2) + tail, false);
    SumConcat(BigEndian(c, 2), tail, false);
    WordSum(c);
  }

  /** The checksum field, at an even place, adds its own value to the sum. */
  lemma FieldAddsItself(h: TcpHeader, c: u16, rest: seq<byte>)
    ensures ByteSum(Encode(h.(cksum := c), rest), false) == ByteSum(Encode(h.(cksum := 0), rest), false) + c
  {
    hide ByteSum;
    hide BigEndian;
    hide EncodeFront;
    var h0, hc := h.(cksum := 0), h.(cksum := c);
    FrontIgnoresChecksum(h, c);
    FrontSplits(h0, BigEndian(0, 2) + EncodeTail(h0, rest));
    FrontSplits(hc, BigEndian(c, 2) + EncodeTail(hc, rest));
    WordAtEvenPlace(EncodeFront(h0, []), 0, EncodeTail(h0, rest));
    WordAtEvenPlace(EncodeFront(h0, []), c, EncodeTail(h0, rest));
  }

  lemma FrontIgnoresChecksum(h: TcpHeader, c: u16)
    ensures EncodeFront(h.(cksum := c), []) == EncodeFront(h.(cksum := 0), [])
  {
    hide BigEndian;
  }

  /** Sums of whole datagrams on top of a pseudo-header sum stay below 2^32. */
  lemma SumFits(data: seq<byte>, pseudo: nat)
    requires |data| <= 65535 && pseudo <= 0x10_0000
    ensures pseudo + ByteSum(data, false) + 65535 < TWO32
  {
    SumBound(data, false);
  }

  /**
   * The round trip: a segment of up to 65535 bytes, written with its checksum, is accepted and gives
   * back every header field and the payload.
   */
  lemma SegmentRoundTrip(seg: Segment, pseudo: nat)
    requires 5 <= seg.header.doff <= 15 && 4 * seg.header.doff + |seg.payload| <= 65535 && pseudo <= 0x10_0000
    ensures var s := Checksummed(seg, pseudo);
      ParseSegment(Encode(s.header, s.payload), pseudo) == Parsed(s, NoError)
  {
    hide ByteSum;
    hide Fold;
    hide Encode;
    hide ParseHeader;
    var s := Checksummed(seg, pseudo);
    var sum := SegmentSum(seg, pseudo);
    EncodeLength(seg.header.(cksum := 0), seg.payload);
    SumFits(Encode(seg.header.(cksum := 0), seg.payload), pseudo);
    FieldAddsItself(seg.header, s.header.cksum, seg.payload);
    ChecksumCompletes(sum);
    HeaderRoundTrip(s.header, s.payload);
  }

  // ------------------------------------------------------------------
  // Exactly which byte strings are accepted

  /** Without an error, what is taken was there. */
  lemma TakeAccounts(p: Parser, n: nat)
    ensures Take(p, n).1.error == NoError ==> p.error == NoError && |p.buffer| == |Take(p, n).1.buffer| + n
  {
  }

  lemma TakeFrom(buffer: seq<byte>, k: nat, n: nat)
    requires k + n <= |buffer|
    ensures Take(Parser(buffer[k..], NoError), n).1 == Parser(buffer[k + n..], NoError)
  {
    assert buffer[k..][n..] == buffer[k + n..];
  }

  /** The parser behind the twenty fixed bytes. */
  function AfterFixed(p: Parser): Parser {
    Take(Take(Take(Take(Take(Take(Take(Take(Take(p, 2).1, 2).1, 4).1, 4).1, 1).1, 1).1, 2).1, 2).1, 2).1
  }

  function OffsetByte(p: Parser): nat {
    Take(Take(Take(Take(Take(p, 2).1, 2).1, 4).1, 4).1, 1).0
  }

  lemma ShortFails(buffer: seq<byte>)
    requires |buffer| < HEADER_LENGTH
    ensures AfterFixed(Parser(buffer, NoError)).error != NoError
  {
    hide Take;
    var p0 := Parser(buffer, NoError);
    TakeAccounts(p0, 2);
    var p1 := Take(p0, 2).1;
    TakeAccounts(p1, 2);
    var p2 := Take(p1, 2).1;
    TakeAccounts(p2, 4);
    var p3 := Take(p2, 4).1;
    TakeAccounts(p3, 4);
    var p4 := Take(p3, 4).1;
    TakeAccounts(p4, 1);
    var p5 := Take(p4, 1).1;
    TakeAccounts(p5, 1);
    var p6 := Take(p5, 1).1;
    TakeAccounts(p6, 2);
    var p7 := Take(p6, 2).1;
    TakeAccounts(p7, 2);
    TakeAccounts(Take(p7, 2).1, 2);
  }

  lemma LongSucceeds(buffer: seq<byte>)
    requires |buffer| >= HEADER_LENGTH
    ensures AfterFixed(Parser(buffer, NoError)) == Parser(buffer[HEADER_LENGTH..], NoError)
    ensures OffsetByte(Parser(buffer, NoError)) == buffer[12]
  {
    hide Take;
    assert buffer == buffer[0..];
    TakeFrom(buffer, 0, 2);
    TakeFrom(buffer, 2, 2);
    TakeFrom(buffer, 4, 4);
    TakeFrom(buffer, 8, 4);
    OneByte(Parser(buffer[12..], NoError));
    TakeFrom(buffer, 12, 1);
    TakeFrom(buffer, 13, 1);
    TakeFrom(buffer, 14, 2);
    TakeFrom(buffer, 16, 2);
    TakeFrom(buffer, 18, 2);
  }

  /** The layout of the header in section 3.1 of RFC 793, for any string that has the twenty fixed bytes. */
  lemma HeaderLayout(buffer: seq<byte>)
    requires |buffer| >= HEADER_LENGTH
    ensures var h := ParseHeader(Parser(buffer, NoError)).header;
      && h.sport == Field(buffer, 0, 2) && h.dport == Field(buffer, 2, 2)
      && h.seqno == Field(buffer, 4, 4) && h.ackno == Field(buffer, 8, 4)
      && h.doff == Field(buffer, 12, 1) / 16
      && h.urg == (Field(buffer, 13, 1) / 32 % 2 == 1) && h.ack == (Field(buffer, 13, 1) / 16 % 2 == 1)
      && h.psh == (Field(buffer, 13, 1) / 8 % 2 == 1) && h.rst == (Field(buffer, 13, 1) / 4 % 2 == 1)
      && h.syn == (Field(buffer, 13, 1) / 2 % 2 == 1) && h.fin == (Field(buffer, 13, 1) % 2 == 1)
      && h.win == Field(buffer, 14, 2) && h.cksum == Field(buffer, 16, 2) && h.uptr == Field(buffer, 18, 2)
  {
    hide Take;
    hide Field;
    hide Skip;
    assert buffer == buffer[0..];
    TakenAt(buffer, 0, 2);
    TakenAt(buffer, 2, 2);
    TakenAt(buffer, 4, 4);
    TakenAt(buffer, 8, 4);
    TakenAt(buffer, 12, 1);
    TakenAt(buffer, 13, 1);
    TakenAt(buffer, 14, 2);
    TakenAt(buffer, 16, 2);
    TakenAt(buffer, 18, 2);
  }

  lemma FixedPart(p: Parser)
    ensures var hp := ParseHeader(p);
      && hp.header.doff == OffsetByte(p) / 16
      && hp.parser == (if hp.header.doff < 5 then AfterFixed(p)
                       else Skip(AfterFixed(p), hp.header.doff * 4 - HEADER_LENGTH))
  {
    hide Take;
    hide HasBit;
    hide Skip;
  }

  lemma OneByte(p: Parser)
    requires p.error == NoError && p.buffer != []
    ensures Take(p, 1).0 == p.buffer[0]
  {
    assert p.buffer[..1] == [p.buffer[0]];
    assert [p.buffer[0]][..0] == [];
  }

  /**
   * A byte string is accepted exactly if its sum is right, the twenty fixed bytes are there, and so is
   * the header it announces; one that announces less than the minimum is accepted all the same.
   */
  lemma AcceptsExactly(buffer: seq<byte>, pseudo: nat)
    ensures var r := ParseSegment(buffer, pseudo);
      r.Parsed? && r.result == NoError <==>
        && Complement((pseudo + ByteSum(buffer, false)) % TWO32) == 0
        && |buffer| >= HEADER_LENGTH
        && (buffer[12] / 16 < 5 || |buffer| >= 4 * (buffer[12] / 16))
  {
    hide ByteSum;
    hide Fold;
    hide ParseHeader;
    hide AfterFixed;
    hide OffsetByte;
    FixedPart(Parser(buffer, NoError));
    if |buffer| < HEADER_LENGTH {
      ShortFails(buffer);
    } else {
      LongSucceeds(buffer);
    }
  }

  /** An accepted segment of up to 65535 bytes with any single byte changed fails the checksum. */
  lemma CorruptionIsDetected(buffer: seq<byte>, pseudo: nat, k: nat, b: byte)
    requires |buffer| <= 65535 && pseudo <= 0x10_0000 && k < |buffer| && b != buffer[k]
    requires ParseSegment(buffer, pseudo).Parsed?
    ensures ParseSegment(buffer[k := b], pseudo) == ChecksumFailed
  {
    hide ByteSum;
    hide Fold;
    hide ParseHeader;
    SingleByteErrorIsDetected(buffer, k, b, pseudo);
  }

  lemma {:induction false} ZerosSum(n: nat, odd: bool)
    ensures |Zeros(n)| == n && ByteSum(Zeros(n), odd) == 0
    ensures forall i :: 0 <= i < n ==> Zeros(n)[i] == 0
  {
    if n == 0 {
    } else {
      assert Zeros(n)[1..] == Zeros(n - 1);
      ZerosSum(n - 1, !odd);
    }
  }

  /** Twenty zero bytes announce a header of no length at all, and are accepted with the right pseudo-header. */
  lemma ShortHeaderIsAccepted()
    ensures var r := ParseSegment(Zeros(HEADER_LENGTH), 65535); r.Parsed? && r.result == NoError
    ensures ParseHeader(Parser(Zeros(HEADER_LENGTH), NoError)).result == HeaderTooShort
  {
    hide ParseSegment;
    hide Zeros;
    ZerosSum(HEADER_LENGTH, false);
    AcceptedSums(65535);
    AcceptsExactly(Zeros(HEADER_LENGTH), 65535);
  }
}
