/** TCP segments. */
module Segments {
  import opened Numbers

  datatype TcpHeader = TcpHeader(
    sport: u16,
    dport: u16,
    seqno: u32,
    ackno: u32,
    doff: byte,
    urg: bool,
    ack: bool,
    psh: bool,
    rst: bool,
    syn: bool,
    fin: bool,
    win: u16,
    cksum: u16,
    uptr: u16)

  const DEFAULT_HEADER := TcpHeader(0, 0, 0, 0, 5, false, false, false, false, false, false, 0, 0, 0)

  datatype Segment = Segment(header: TcpHeader, payload: seq<byte>) {
    /** SYN and FIN each take one sequence number, like a byte. */
    function Length(): nat {
      |payload| + Bit(header.syn) + Bit(header.fin)
    }

    /** The same segment with the fields that its sender's receiver fills in. */
    function Stamped(ackno: u32, win: u16): Segment {
      this.(header := header.(ack := true, ackno := ackno, win := win))
    }
  }

  /** The two segments carry the same part of the stream; acknowledgments may differ. */
  predicate SameData(s: Segment, t: Segment) {
    && s.payload == t.payload
    && s.header.seqno == t.header.seqno
    && s.header.syn == t.header.syn
    && s.header.fin == t.header.fin
  }
}
