/** The world server's identity and the heartbeat state packet it sends to the
    login server: `Population`, `as_float`, the identity defaults and
    `WorldServer._get_state_packet`. */
module World {
  import opened Wrappers
  import opened PyBytes
  import Decimal
  import Float32

  /** How crowded the realm is, as advertised to the login server. */
  datatype Population = LOW | AVERAGE | HIGH | FULL

  /** The enum member's `value`. */
  function PopulationValue(p: Population): (v: nat)
    ensures v <= 3
  {
    match p
    case LOW => 0
    case AVERAGE => 1
    case HIGH => 2
    case FULL => 3
  }

  /** `Population(n)`: the member whose value is `n`, or None where Python raises ValueError. */
  function PopulationFromValue(n: int): (r: Option<Population>)
    ensures r.Some? <==> 0 <= n <= 3
    ensures r.Some? ==> PopulationValue(r.value) == n
  {
    if n == 0 then Some(LOW)
    else if n == 1 then Some(AVERAGE)
    else if n == 2 then Some(HIGH)
    else if n == 3 then Some(FULL)
    else None
  }

  /** `Population.as_float`: the member's value as a float. */
  function AsFloat(p: Population): (r: real)
    ensures 0.0 <= r <= 3.0 && r.Floor as real == r
  {
    PopulationValue(p) as real
  }

  /** `as_float` is total, injective and follows the declaration order of the enum,
      and its whole number recovers the member. */
  lemma AsFloatProperties(p: Population, q: Population)
    ensures AsFloat(LOW) == 0.0 && AsFloat(AVERAGE) == 1.0 && AsFloat(HIGH) == 2.0 && AsFloat(FULL) == 3.0
    ensures AsFloat(p) == AsFloat(q) <==> p == q
    ensures AsFloat(p) < AsFloat(q) <==> PopulationValue(p) < PopulationValue(q)
    ensures PopulationFromValue(AsFloat(p).Floor) == Some(p)
  {
  }

  /** `struct.pack("f", p.as_float())`, taken to be little-endian: the IEEE 754
      single-precision bytes of 0.0, 1.0, 2.0 and 3.0. */
  function PopulationBytes(p: Population): (b: seq<byte>)
    ensures |b| == 4
    ensures Float32.Value(b) == Some(AsFloat(p))
  {
    Float32.SmallWholeNumbers();
    match p
    case LOW => [0x00, 0x00, 0x00, 0x00]
    case AVERAGE => [0x00, 0x00, 0x80, 0x3F]
    case HIGH => [0x00, 0x00, 0x00, 0x40]
    case FULL => [0x00, 0x00, 0x40, 0x40]
  }

  /** The inverse of the population byte table, as a reader of the packet uses it. */
  function PopulationFromBytes(b: seq<byte>): (r: Option<Population>)
    ensures r.Some? ==> PopulationBytes(r.value) == b
    ensures forall p :: PopulationBytes(p) == b ==> r == Some(p)
  {
    if b == PopulationBytes(LOW) then Some(LOW)
    else if b == PopulationBytes(AVERAGE) then Some(AVERAGE)
    else if b == PopulationBytes(HIGH) then Some(HIGH)
    else if b == PopulationBytes(FULL) then Some(FULL)
    else None
  }

  const DEFAULT_HOST: string := "127.0.0.1"
  const DEFAULT_PORT: int := 13250

  /** `host + ":" + str(port)`: the host, then a ':' that is the last one in
      the address, because the decimal port contains none. */
  function Address(host: string, port: int): (a: string)
    ensures |a| >= |host| + 2 && a[..|host|] == host && a[|host|] == ':'
    ensures ':' !in a[|host| + 1..]
  {
    Decimal.StrHasNoColon(port);
    assert (host + ":" + Decimal.Str(port))[|host| + 1..] == Decimal.Str(port);
    host + ":" + Decimal.Str(port)
  }

  /** The address is ASCII exactly when the host is: the separator and the
      decimal port always are. */
  lemma AddressAscii(host: string, port: int)
    ensures IsAscii(Address(host, port)) <==> IsAscii(host)
  {
  }

  /** The wire layout: total length, name length, name, four population bytes,
      address length, address. */
  function Frame(name: seq<byte>, population: seq<byte>, address: seq<byte>): (p: seq<byte>)
    requires |population| == 4 && 6 + |name| + |address| < 256
    ensures |p| == 7 + |name| + |address| && p[0] as int == |p| - 1 && p[1] as int == |name|
  {
    [(6 + |name| + |address|) as byte, |name| as byte] + name + population
      + [|address| as byte] + address
  }

  /** Each field of a frame sits where the layout puts it, and the first byte
      counts the bytes after it. */
  lemma FrameFields(name: seq<byte>, population: seq<byte>, address: seq<byte>)
    requires |population| == 4 && 6 + |name| + |address| < 256
    ensures var p, n := Frame(name, population, address), |name|;
      && |p| == 7 + n + |address|
      && p[0] as int == |p| - 1
      && p[1] as int == n
      && p[2..2 + n] == name
      && p[2 + n..6 + n] == population
      && p[6 + n] as int == |address|
      && p[7 + n..] == address
  {
  }

  /** Conversely, a byte string whose length bytes are consistent is the frame
      of its own fields. */
  lemma FrameOfFields(p: seq<byte>)
    requires |p| >= 7 && 7 + p[1] as int <= |p|
    requires p[0] as int == |p| - 1 && |p| == 7 + p[1] as int + p[6 + p[1] as int] as int
    ensures var n := p[1] as int;
      p == Frame(p[2..2 + n], p[2 + n..6 + n], p[7 + n..])
  {
  }

  /** The packet for a name, a population and an already formatted address,
      or the exception the serialiser raises first: a non-ASCII name, a name
      longer than one length byte can state, a non-ASCII address, an address
      too long for its length byte, or a remainder too long for the total byte. */
  function Encode(name: string, population: Population, address: string): (r: Result<seq<byte>, PyError>)
    ensures r.Success? <==> IsAscii(name) && IsAscii(address) && 6 + |name| + |address| <= 255
    ensures r == Failure(UnicodeEncodeError) <==> !IsAscii(name) || (|name| <= 255 && !IsAscii(address))
    ensures r.Success? ==> |r.value| == 7 + |name| + |address| && r.value[0] as int == |r.value| - 1
  {
    if !IsAscii(name) then Failure(UnicodeEncodeError)
    else if |name| > 255 then Failure(OverflowError)
    else if !IsAscii(address) then Failure(UnicodeEncodeError)
    else if |address| > 255 || 6 + |name| + |address| > 255 then Failure(OverflowError)
    else Success(Frame(EncodeAscii(name).value, PopulationBytes(population), EncodeAscii(address).value))
  }

  /** The state packet of a server identity. */
  function StatePacket(name: string, population: Population, host: string, port: int): Result<seq<byte>, PyError> {
    Encode(name, population, Address(host, port))
  }

  /** The serialiser's appends, in its order, produce the frame. */
  lemma AppendedFrame(name: seq<byte>, population: seq<byte>, address: seq<byte>, total: byte, nameLength: byte, addressLength: byte)
    requires |population| == 4 && 6 + |name| + |address| < 256
    requires total as int == 6 + |name| + |address|
    requires nameLength as int == |name| && addressLength as int == |address|
    ensures [total] + ([] + [nameLength] + name + population + [addressLength] + address) == Frame(name, population, address)
  {
  }

  /** Once both fields encode and the lengths fit, the state packet is the
      frame of the encoded fields. */
  lemma StatePacketSuccess(name: string, population: Population, host: string, port: int, nameBytes: seq<byte>, address: seq<byte>)
    requires EncodeAscii(name) == Success(nameBytes)
    requires EncodeAscii(Address(host, port)) == Success(address)
    requires 6 + |nameBytes| + |address| < 256
    ensures StatePacket(name, population, host, port) == Success(Frame(nameBytes, PopulationBytes(population), address))
  {
  }

  /** When the packet is built, its first byte is the length of the rest, the
      whole is `7 + |name| + |address|` bytes long, and the fields sit where the
      layout puts them. */
  lemma StatePacketLayout(name: string, population: Population, host: string, port: int)
    requires StatePacket(name, population, host, port).Success?
    ensures var p, n, a := StatePacket(name, population, host, port).value, |name|, Address(host, port);
      && |p| == 7 + n + |a|
      && p[0] as int == |p| - 1
      && p[1] as int == n
      && EncodeAscii(name) == Success(p[2..2 + n])
      && p[2 + n..6 + n] == PopulationBytes(population)
      && p[6 + n] as int == |a|
      && EncodeAscii(a) == Success(p[7 + n..])
  {
    FrameFields(EncodeAscii(name).value, PopulationBytes(population), EncodeAscii(Address(host, port)).value);
  }

  /** Building the packet fails exactly under the conditions that make Python
      raise, and the exception is UnicodeEncodeError exactly when a non-ASCII
      name or host is reached before any length overflows. */
  lemma StatePacketFailure(name: string, population: Population, host: string, port: int)
    ensures var r, a := StatePacket(name, population, host, port), Address(host, port);
      && (r.Failure? <==> !IsAscii(name) || !IsAscii(host) || |name| > 255 || |a| > 255 || 6 + |name| + |a| > 255)
      && (r == Failure(UnicodeEncodeError) <==> !IsAscii(name) || (|name| <= 255 && !IsAscii(host)))
      && (r == Failure(OverflowError) <==> IsAscii(name) && (|name| > 255 || (IsAscii(host) && 6 + |name| + |a| > 255)))
  {
  }

  /** The ASCII bytes of the default name and address. */
  const DEFAULT_NAME_BYTES: seq<byte> :=
    ['e' as byte, 'x' as byte, 'c' as byte, 'e' as byte, 'l' as byte, 'e' as byte, 'n' as byte]
  const DEFAULT_ADDRESS_BYTES: seq<byte> :=
    ['1' as byte, '2' as byte, '7' as byte, '.' as byte, '0' as byte, '.' as byte, '0' as byte,
     '.' as byte, '1' as byte, ':' as byte, '1' as byte, '3' as byte, '2' as byte, '5' as byte, '0' as byte]

  /** The packet of the default identity: "excelen", AVERAGE, 127.0.0.1:13250. */
  const DEFAULT_PACKET: seq<byte> := [
    28,
    7, 'e' as byte, 'x' as byte, 'c' as byte, 'e' as byte, 'l' as byte, 'e' as byte, 'n' as byte,
    0x00, 0x00, 0x80, 0x3F,
    15, '1' as byte, '2' as byte, '7' as byte, '.' as byte, '0' as byte, '.' as byte, '0' as byte,
    '.' as byte, '1' as byte, ':' as byte, '1' as byte, '3' as byte, '2' as byte, '5' as byte, '0' as byte]

  lemma DefaultAddress()
    ensures Address(DEFAULT_HOST, DEFAULT_PORT) == "127.0.0.1:13250"
  {
    // the digits of 13250, most significant first
    assert Decimal.NatToDecimal(1325) == "1325";
    assert Decimal.Str(DEFAULT_PORT) == "13250";
  }

  /** The default name and address encode without error. */
  lemma DefaultFields(address: string)
    requires address == "127.0.0.1:13250"
    ensures Encode("excelen", AVERAGE, address)
      == Success(Frame(DEFAULT_NAME_BYTES, PopulationBytes(AVERAGE), DEFAULT_ADDRESS_BYTES))
  {
    EncodeAsciiOf("excelen", DEFAULT_NAME_BYTES);
    EncodeAsciiOf(address, DEFAULT_ADDRESS_BYTES);
  }

  lemma DefaultFrame()
    ensures Frame(DEFAULT_NAME_BYTES, PopulationBytes(AVERAGE), DEFAULT_ADDRESS_BYTES) == DEFAULT_PACKET
  {
  }

  /** The default packet has a length byte of 28 and 29 bytes in all, carries
      the bytes of 1.0 and a 15-byte address field. */
  lemma DefaultPacketShape()
    ensures |DEFAULT_PACKET| == 29 && DEFAULT_PACKET[0] == 28
    ensures DEFAULT_PACKET[9..13] == PopulationBytes(AVERAGE)
    ensures Float32.Value(DEFAULT_PACKET[9..13]) == Some(1.0)
    ensures DEFAULT_PACKET[13] == 15 && DEFAULT_PACKET[14..] == DEFAULT_ADDRESS_BYTES
  {
  }

  /** The default identity ("excelen", AVERAGE, 127.0.0.1, 13250) yields the default packet. */
  lemma DefaultStatePacket()
    ensures Address(DEFAULT_HOST, DEFAULT_PORT) == "127.0.0.1:13250"
    ensures StatePacket("excelen", AVERAGE, DEFAULT_HOST, DEFAULT_PORT) == Success(DEFAULT_PACKET)
  {
    var address := Address(DEFAULT_HOST, DEFAULT_PORT);
    DefaultAddress();
    DefaultFields(address);
    DefaultFrame();
  }

  /** The part of a world server this model covers: its advertised identity.
      The sockets and the shutdown event are not modelled. */
  class WorldServer {
    var name: string
    var population: Population
    var host: string
    var port: int

    constructor ()
      ensures name == "excelen" && population == AVERAGE
      ensures host == DEFAULT_HOST && port == DEFAULT_PORT
    {
      name := "excelen";
      population := AVERAGE;
      host := DEFAULT_HOST;
      port := DEFAULT_PORT;
    }

    /** `_get_state_packet`: appends the fields one after the other, then
        prepends the total length; each conversion may raise. Reads the four
        identity fields and changes nothing. */
    method GetStatePacket() returns (r: Result<seq<byte>, PyError>)
      ensures r == StatePacket(name, population, host, port)
    {
      var packet: seq<byte> := [];
      var nameBytes :- EncodeAscii(name);
      var nameLength :- ToByte(|nameBytes|);
      packet := packet + [nameLength];
      packet := packet + nameBytes;
      packet := packet + PopulationBytes(population);
      var address :- EncodeAscii(host + ":" + Decimal.Str(port));
      var addressLength :- ToByte(|address|);
      packet := packet + [addressLength];
      packet := packet + address;
      var total :- ToByte(|packet|);
      AppendedFrame(nameBytes, PopulationBytes(population), address, total, nameLength, addressLength);
      StatePacketSuccess(name, population, host, port, nameBytes, address);
      packet := [total] + packet;
      return Success(packet);
    }
  }

  /** A freshly constructed server sends the default packet. */
  method DefaultServerStatePacket() returns (r: Result<seq<byte>, PyError>)
    ensures r == Success(DEFAULT_PACKET)
  {
    var server := new WorldServer();
    r := server.GetStatePacket();
    DefaultStatePacket();
  }
}
