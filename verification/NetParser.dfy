/** Reading and writing big-endian integers. */
module NetParsers {
  import opened Numbers

  datatype ParseResult =
    | NoError
    | BadChecksum
    | PacketTooShort
    | WrongIPVersion
    | HeaderTooShort
    | TruncatedPacket

  /** `val` shifted right by `k` bytes. */
  function Shifted(val: nat, k: nat): nat {
    if k == 0 then val else Shifted(val, k - 1) / 256
  }

  /** The low `len` bytes of `val`, most significant first. */
  function BigEndian(val: nat, len: nat): (bytes: seq<byte>)
    ensures |bytes| == len
  {
    if len == 0 then [] else BigEndian(val / 256, len - 1) + [val % 256]
  }

  /** One more than the greatest integer of `len` bytes. */
  function Capacity(len: nat): nat {
    if len == 0 then 1 else 256 * Capacity(len - 1)
  }

  function FromBigEndian(bytes: seq<byte>): (val: nat)
    ensures val < Capacity(|bytes|)
  {
    if bytes == [] then 0 else FromBigEndian(bytes[..|bytes| - 1]) * 256 + bytes[|bytes| - 1]
  }

  /** What is written is read back. */
  lemma {:induction false} IntegerRoundTrip(val: nat, len: nat)
    requires val < Capacity(len)
    ensures FromBigEndian(BigEndian(val, len)) == val
  {
    if len == 0 {
    } else {
      var bytes := BigEndian(val, len);
      assert bytes[..|bytes| - 1] == BigEndian(val / 256, len - 1);
      QuotientFits(val, Capacity(len - 1));
      IntegerRoundTrip(val / 256, len - 1);
      assert FromBigEndian(bytes) == val / 256 * 256 + val % 256;
    }
  }

  /** The first byte is the most significant one. */
  lemma {:induction false} FirstIsMostSignificant(b: byte, rest: seq<byte>)
    ensures FromBigEndian([b] + rest) == b * Capacity(|rest|) + FromBigEndian(rest)
  {
    var bytes := [b] + rest;
    if rest == [] {
      assert bytes[..0] == [];
      assert bytes[..|bytes| - 1] == [];
    } else {
      var front := rest[..|rest| - 1];
      assert bytes[..|bytes| - 1] == [b] + front;
      FirstIsMostSignificant(b, front);
      assert 256 * (b * Capacity(|front|)) == b * (256 * Capacity(|front|));
    }
  }

  /** The integer of `n` bytes at a place of a byte string. */
  function Field(bytes: seq<byte>, at: nat, n: nat): nat
    requires at + n <= |bytes|
  {
    FromBigEndian(bytes[at..at + n])
  }

  /** What is taken at a place is the integer there. */
  lemma TakenAt(buffer: seq<byte>, at: nat, n: nat)
    requires at + n <= |buffer|
    ensures Take(Parser(buffer[at..], NoError), n) == (Field(buffer, at, n), Parser(buffer[at + n..], NoError))
  {
    assert buffer[at..][..n] == buffer[at..at + n];
    assert buffer[at..][n..] == buffer[at + n..];
  }

  lemma QuotientFits(val: nat, c: nat)
    requires val < 256 * c
    ensures val / 256 < c
  {
  }

  lemma Capacities()
    ensures Capacity(1) == TWO8 && Capacity(2) == TWO16 && Capacity(4) == TWO32
  {
    assert Capacity(0) == 1 && Capacity(1) == 256 * Capacity(0) && Capacity(2) == 256 * Capacity(1);
    assert Capacity(3) == 256 * Capacity(2) && Capacity(4) == 256 * Capacity(3);
  }

  /** Appends an integer to a string, byte by byte from the most significant one. */
  method UnparseInt(s: seq<byte>, val: nat, len: nat) returns (s': seq<byte>)
    ensures s' == s + BigEndian(val, len)
  {
    s' := s;
    for i := 0 to len
      invariant s' == s + BigEndian(Shifted(val, len - i), i)
    {
      var theByte := Shifted(val, len - i - 1) % 256;
      s' := s' + [theByte];
      assert BigEndian(Shifted(val, len - (i + 1)), i + 1)
          == BigEndian(Shifted(val, len - i), i) + [Shifted(val, len - (i + 1)) % 256];
    }
  }

  /** The state of a parser: what is left, and the last error, which stays. */
  datatype Parser = Parser(buffer: seq<byte>, error: ParseResult)

  function CheckSize(p: Parser, n: nat): Parser {
    if n > |p.buffer| then p.(error := PacketTooShort) else p
  }

  /** Takes an integer of `n` bytes off the front; zero, and nothing taken, after an error. */
  function Take(p: Parser, n: nat): (nat, Parser) {
    var q := CheckSize(p, n);
    if q.error != NoError then (0, q) else (FromBigEndian(q.buffer[..n]), q.(buffer := q.buffer[n..]))
  }

  function TakeU8(p: Parser): (byte, Parser) {
    Capacities();
    Take(p, 1)
  }

  function TakeU16(p: Parser): (u16, Parser) {
    Capacities();
    Take(p, 2)
  }

  function TakeU32(p: Parser): (u32, Parser) {
    Capacities();
    Take(p, 4)
  }

  function Skip(p: Parser, n: nat): Parser {
    var q := CheckSize(p, n);
    if q.error != NoError then q else q.(buffer := q.buffer[n..])
  }

  class NetParser {
    var buffer: seq<byte>
    var error: ParseResult

    ghost function View(): Parser
      reads this
    {
      Parser(buffer, error)
    }

    constructor (buffer: seq<byte>)
      ensures View() == Parser(buffer, NoError)
    {
      this.buffer, error := buffer, NoError;
    }

    method CheckLength(size: nat)
      modifies this
      ensures View() == CheckSize(old(View()), size)
    {
      if size > |buffer| {
        error := PacketTooShort;
      }
    }

    method ParseInt(len: nat) returns (ret: nat)
      modifies this
      ensures (ret, View()) == Take(old(View()), len)
    {
      CheckLength(len);
      if error != NoError {
        return 0;
      }
      ret := 0;
      for i := 0 to len
        invariant ret == FromBigEndian(buffer[..i])
      {
        ret := ret * 256;
        ret := ret + buffer[i];
        assert buffer[..i + 1][..i] == buffer[..i];
      }
      buffer := buffer[len..];
    }

    method ParseU8() returns (ret: byte)
      modifies this
      ensures (ret, View()) == TakeU8(old(View()))
    {
      Capacities();
      ret := ParseInt(1);
    }

    method ParseU16() returns (ret: u16)
      modifies this
      ensures (ret, View()) == TakeU16(old(View()))
    {
      Capacities();
      ret := ParseInt(2);
    }

    method ParseU32() returns (ret: u32)
      modifies this
      ensures (ret, View()) == TakeU32(old(View()))
    {
      Capacities();
      ret := ParseInt(4);
    }

    method RemovePrefix(n: nat)
      modifies this
      ensures View() == Skip(old(View()), n)
    {
      CheckLength(n);
      if error != NoError {
        return;
      }
      buffer := buffer[n..];
    }
  }

  /** An integer that was written in front of `rest` is taken off again. */
  lemma TakeEncoded(val: nat, len: nat, rest: seq<byte>)
    requires val < Capacity(len)
    ensures Take(Parser(BigEndian(val, len) + rest, NoError), len) == (val, Parser(rest, NoError))
    ensures len == 1 ==> TakeU8(Parser(BigEndian(val, len) + rest, NoError)) == (val, Parser(rest, NoError))
    ensures len == 2 ==> TakeU16(Parser(BigEndian(val, len) + rest, NoError)) == (val, Parser(rest, NoError))
    ensures len == 4 ==> TakeU32(Parser(BigEndian(val, len) + rest, NoError)) == (val, Parser(rest, NoError))
  {
    hide BigEndian;
    var all := BigEndian(val, len) + rest;
    assert all[..len] == BigEndian(val, len);
    assert all[len..] == rest;
    IntegerRoundTrip(val, len);
  }
}
