/** A reader for the heartbeat state packet, following the documented layout,
    and the round trips that tie it to the serialiser. The login server's own
    reader is not part of this model; this one is the layout's inverse. */
module StatePacketDecoder {
  import opened Wrappers
  import opened PyBytes
  import Decimal
  import opened World

  /** What a state packet advertises. */
  datatype ServerState = ServerState(name: string, population: Population, address: string)

  /** Splits a packet into its fields, or None when the bytes do not follow the
      layout (wrong total, truncated field, trailing bytes, a non-ASCII byte, or
      population bytes outside the table). */
  function Decode(p: seq<byte>): (r: Option<ServerState>)
    ensures r.Some? ==> |p| == 7 + |r.value.name| + |r.value.address| && p[0] as int == |p| - 1
    ensures r.Some? ==> p[1] as int == |r.value.name| && p[6 + |r.value.name|] as int == |r.value.address|
    ensures r.Some? ==> IsAscii(r.value.name) && IsAscii(r.value.address)
  {
    if |p| < 7 || p[0] as int != |p| - 1 then None
    else
      var n := p[1] as int;
      if |p| < 7 + n then None
      else
        var a := p[6 + n] as int;
        if |p| != 7 + n + a then None
        else
          var name :- DecodeAscii(p[2..2 + n]);
          var population :- PopulationFromBytes(p[2 + n..6 + n]);
          var address :- DecodeAscii(p[7 + n..]);
          Some(ServerState(name, population, address))
  }

  /** Decoding a packet the serialiser produced gives back the name, the
      population and the address it was built from. */
  lemma DecodeEncode(name: string, population: Population, address: string)
    requires Encode(name, population, address).Success?
    ensures Decode(Encode(name, population, address).value) == Some(ServerState(name, population, address))
  {
    var nb, pb, ab := EncodeAscii(name).value, PopulationBytes(population), EncodeAscii(address).value;
    FrameFields(nb, pb, ab);
    AsciiRoundTrip(name, nb);
    AsciiRoundTrip(address, ab);
  }

  /** Every packet the reader accepts is exactly the packet the serialiser
      builds from what it read: no other byte string decodes. */
  lemma EncodeDecode(p: seq<byte>)
    requires Decode(p).Some?
    ensures var s := Decode(p).value; Encode(s.name, s.population, s.address) == Success(p)
  {
    var s := Decode(p).value;
    var n := p[1] as int;
    var a := p[6 + n] as int;
    var nb, pb, ab := p[2..2 + n], p[2 + n..6 + n], p[7 + n..];
    assert DecodeAscii(nb) == Some(s.name);
    assert PopulationFromBytes(pb) == Some(s.population);
    assert DecodeAscii(ab) == Some(s.address);
    AsciiRoundTrip(s.name, nb);
    AsciiRoundTrip(s.address, ab);
    assert |s.name| == n && |s.address| == a && 6 + n + a == p[0] as int;
    assert pb == PopulationBytes(s.population);
    FrameOfFields(p);
  }

  /** The position of the last occurrence of `c` in `s`. */
  function LastIndexOf(s: string, c: char): (r: Option<nat>)
    ensures r.Some? ==> r.value < |s| && s[r.value] == c && c !in s[r.value + 1..]
    ensures r.None? ==> c !in s
  {
    if s == [] then None
    else if s[|s| - 1] == c then Some(|s| - 1)
    else
      var r := LastIndexOf(s[..|s| - 1], c);
      assert r.Some? ==> s[r.value + 1..] == s[..|s| - 1][r.value + 1..] + [s[|s| - 1]];
      assert r.None? ==> s == s[..|s| - 1] + [s[|s| - 1]];
      r
  }

  /** Splits an address `host:port` at its last ':' into the host and the
      decimal port. */
  function SplitAddress(address: string): Option<(string, int)> {
    var i :- LastIndexOf(address, ':');
    var port :- Decimal.ParseInt(address[i + 1..]);
    Some((address[..i], port))
  }

  /** The address field gives back the host and the port, even when the host
      itself contains ':'. */
  lemma SplitAddressOfAddress(host: string, port: int)
    ensures SplitAddress(Address(host, port)) == Some((host, port))
  {
    var a, digits := Address(host, port), Decimal.Str(port);
    Decimal.StrHasNoColon(port);
    var k := |host|;
    assert a[k] == ':';
    assert a[k + 1..] == digits;
    var i := LastIndexOf(a, ':');
    assert i == Some(k) by {
      assert forall j :: k < j < |a| ==> a[j] == digits[j - k - 1];
    }
    assert a[..k] == host;
    Decimal.ParseStr(port);
  }

  /** Reading the packet of a server identity recovers its name, its population
      and the host and port of its address. */
  lemma StatePacketRoundTrip(name: string, population: Population, host: string, port: int)
    requires StatePacket(name, population, host, port).Success?
    ensures var s := Decode(StatePacket(name, population, host, port).value);
      && s == Some(ServerState(name, population, Address(host, port)))
      && SplitAddress(s.value.address) == Some((host, port))
  {
    DecodeEncode(name, population, Address(host, port));
    SplitAddressOfAddress(host, port);
  }
}
