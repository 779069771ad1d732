# World server heartbeat packet and object field store

A Dafny model of two pieces of the Durator world server (Saph-Emu):

- **The heartbeat state packet.** A world server advertises itself to the login server with a
  packet built from its identity (name, population, host, port). The packet is a total-length byte,
  then a name-length byte and the ASCII name, four bytes of the population as an IEEE 754
  single-precision float, an address-length byte, and the ASCII address `host:port`. The model has
  the `Population` enumeration and its `as_float` projection, the identity defaults of a fresh
  `WorldServer`, and `_get_state_packet` as a method on a `WorldServer` class that appends the fields
  one step at a time, as the source does. The method is proved equal to a layout function
  (`World.StatePacket`). That function is proved to fail exactly when Python raises, to put every
  field at its place, and to be inverted by a decoder (`StatePacketDecoder.Decode`). The decoder
  recovers the name, the population and the address, and the address gives back host and port.
- **The object field store.** `BaseObject` has a name, map and zone IDs, a position and a
  dictionary of field values. `set` updates the dictionary in place, `get` reads it (None when
  unset) and `guid` reads the GUID field. This part also models the `ObjectType` and
  `ObjectDescFlags` enumerations and the bit masks written beside the types.

Files: `wrappers.dfy` (Option, Result), `py_bytes.dfy` (Python's `int.to_bytes(n, 1, ...)`,
`str.encode("ascii")`, `bytes.decode("ascii")`), `decimal.dfy` (Python's `str(int)` and a parser for
it), `float32.dfy` (the value of four little-endian bytes read as a binary32 float; it checks the
population byte table), `world_server.dfy`, `state_packet_decoder.dfy`, `base_object.dfy`.

Exceptions are values: a call that raises in Python returns `Failure(OverflowError)` or
`Failure(UnicodeEncodeError)`. The failing conditions are checked in the source's statement order.

Assumption: `struct.pack("f", ...)` at durator/world/world_server.py:97 uses the machine's native
byte order. The model fixes little-endian, so 1.0 is `00 00 80 3F`.

Two consequences of the code that the model keeps:
- Only the name goes unchecked at start-up. `start` binds the listening socket to `(host, port)`
  (durator/world/world_server.py:46, 59) before it starts the heartbeat thread (line 48), and the
  bind rejects a port outside 0..65535 or a host that does not resolve. The packet is built inside
  the heartbeat thread, so the errors left for it are raised there: a non-ASCII or over-long name,
  a non-ASCII host that still resolves, and the total-length overflow.
- The total-length byte overflows when `6 + len(name) + len(address) > 255`, even when each field
  fits its own length byte.

## Model

| member | source | states |
|---|---|---|
| `PyBytes.ToByte` | durator/world/world_server.py:95 | `int.to_bytes(n, 1, "little")` gives the byte equal to `n` when `0 <= n < 256`, and OverflowError otherwise |
| `PyBytes.EncodeAscii` | durator/world/world_server.py:94 | `encode("ascii")` succeeds exactly when every character is below 128, giving one byte per character equal to its code; otherwise UnicodeEncodeError |
| `PyBytes.DecodeAscii` | durator/world/world_server.py:94 | the reader's inverse: succeeds exactly when every byte is below 128, giving one character per byte with the same code |
| `PyBytes.AsciiRoundTrip` | durator/world/world_server.py:94 | encoding `s` gives `b` if and only if decoding `b` gives `s` |
| `Decimal.NatToDecimal` | durator/world/world_server.py:98 | the decimal form of a natural number is non-empty, all digits, and has no leading zero |
| `Decimal.Str` | durator/world/world_server.py:98 | `str(port)` is non-empty, digits apart from a leading '-', and starts with '-' exactly for negative numbers |
| `Decimal.DigitsValueOfDecimal` | durator/world/world_server.py:98 | the digits of `n` denote `n` |
| `Decimal.ParseStr` | durator/world/world_server.py:98 | parsing `str(n)` gives back `n`, for every integer |
| `Decimal.StrHasNoColon` | durator/world/world_server.py:98 | `str(port)` never contains ':' |
| `Float32.SmallWholeNumbers` | durator/world/world_server.py:97 | `00 00 00 00`, `00 00 80 3F`, `00 00 00 40` and `00 00 40 40` are the binary32 values 0.0, 1.0, 2.0 and 3.0 |
| `World.PopulationFromValue` | durator/world/world_server.py:12-17 | `Population(n)` exists exactly for n in 0..3 and the member found has value `n` |
| `World.PopulationValue` | durator/world/world_server.py:14-17 | each member's `value` is one of 0..3; `PopulationFromValue` finds the member back from it |
| `World.AsFloat` | durator/world/world_server.py:19-20 | `as_float` is a whole number between 0.0 and 3.0 |
| `World.AsFloatProperties` | durator/world/world_server.py:12-20 | `as_float` maps LOW, AVERAGE, HIGH, FULL to 0.0, 1.0, 2.0, 3.0; it is injective and order-preserving in both directions, and its whole part recovers the member |
| `World.PopulationBytes` | durator/world/world_server.py:97 | the four population bytes, read as a little-endian binary32, are exactly `as_float` of the member |
| `World.PopulationFromBytes` | durator/world/world_server.py:97 | the byte table is inverted: a member is found exactly for the four table entries, and it is the member whose bytes they are |
| `World.Address` | durator/world/world_server.py:98 | `host + ":" + str(port)` starts with the host, and the ':' after the host is the last ':' in the string |
| `World.AddressAscii` | durator/world/world_server.py:98 | the string `host + ":" + str(port)` is ASCII exactly when the host is |
| `World.Frame` | durator/world/world_server.py:95-101 | the layout of encoded fields is `7 + len(name) + len(address)` bytes, its first byte counts the bytes after it and its second byte is the name length |
| `World.FrameFields` | durator/world/world_server.py:95-101 | in the layout, byte 0 counts the rest, byte 1 is the name length, then come the name, four population bytes, the address length and the address; the length is `7 + len(name) + len(address)` |
| `World.FrameOfFields` | durator/world/world_server.py:95-101 | any byte string whose length bytes agree is the layout of its own fields |
| `World.Encode` | durator/world/world_server.py:93-101 | building from a name, a population and an address succeeds exactly when both are ASCII and `6 + len(name) + len(address) <= 255`. UnicodeEncodeError comes exactly for a non-ASCII name, or a non-ASCII address after a name that fits its length byte. A built packet is `7 + len(name) + len(address)` bytes with the remainder length first |
| `World.StatePacket` | durator/world/world_server.py:92-102 | `_get_state_packet` of an identity: `Encode` of its name, its population and `host + ":" + str(port)` |
| `World.AppendedFrame` | durator/world/world_server.py:93-101 | the appends in the source's order, with the total length prepended, produce the layout |
| `World.StatePacketSuccess` | durator/world/world_server.py:93-101 | once the name and the address encode and the lengths fit, the state packet is the layout of the encoded fields |
| `World.StatePacketLayout` | durator/world/world_server.py:93-101 | a built packet is `7 + len(name) + len(address)` bytes long, its first byte is the length of the rest, and it holds the ASCII name, the population bytes and the ASCII `host:port` at their places |
| `World.StatePacketFailure` | durator/world/world_server.py:94-101 | building fails if and only if the name or host is non-ASCII, the name or address is over 255 bytes, or `6 + len(name) + len(address)` is over 255. The error is UnicodeEncodeError exactly when a non-ASCII name or host is reached before any overflow |
| `World.DefaultAddress` | durator/world/world_server.py:30-38 | the default address field is "127.0.0.1:13250" |
| `World.DefaultPacketShape` | durator/world/world_server.py:92-102 | the default packet is 29 bytes long with length byte 28. Its population bytes are the binary32 value 1.0 and its address field is 15 bytes long |
| `World.DefaultStatePacket` | durator/world/world_server.py:92-102 | the identity ("excelen", AVERAGE, "127.0.0.1", 13250) yields exactly the default packet |
| `World.WorldServer.constructor` | durator/world/world_server.py:34-38 | a new server is named "excelen", has AVERAGE population, host 127.0.0.1 and port 13250 |
| `World.WorldServer.GetStatePacket` | durator/world/world_server.py:92-102 | the step-by-step appends and the final prepend give the layout packet of the four identity fields, or the same exception, and change no field of the server |
| `World.DefaultServerStatePacket` | durator/world/world_server.py:34-38 | a freshly constructed server produces the default packet |
| `StatePacketDecoder.Decode` | durator/world/world_server.py:92-102 | an accepted byte string has a first byte counting the rest, a name length and an address length that add up to its length, and ASCII name and address |
| `StatePacketDecoder.DecodeEncode` | durator/world/world_server.py:92-102 | decoding a packet the serialiser built gives back the name, the population and the address it was built from |
| `StatePacketDecoder.EncodeDecode` | durator/world/world_server.py:92-102 | every byte string the decoder accepts is exactly the packet the serialiser builds from what was decoded |
| `StatePacketDecoder.LastIndexOf` | durator/world/world_server.py:98 | the index found holds the separator and no separator follows it, and None means the separator is absent |
| `StatePacketDecoder.SplitAddressOfAddress` | durator/world/world_server.py:98 | splitting `host + ":" + str(port)` at its last ':' gives back host and port, even for a host that contains ':' |
| `StatePacketDecoder.StatePacketRoundTrip` | durator/world/world_server.py:92-102 | decoding the packet of an identity recovers its name, its population, and the host and port of its address |
| `BaseObjects.TypeFromValue` | durator/world/game/object/base_object.py:7-17 | `ObjectType(n)` exists exactly for n in 0..7 and the member found has value `n` |
| `BaseObjects.TypeValue` | durator/world/game/object/base_object.py:10-17 | each type's `value` is below 8 |
| `BaseObjects.TypeValueRoundTrip` | durator/world/game/object/base_object.py:7-17 | `ObjectType(t.value)` is `t` for every type, so different types have different values |
| `BaseObjects.FlagValue` | durator/world/game/object/base_object.py:23-30 | each flag's `value` is a single set bit |
| `BaseObjects.FlagsAreTypeBits` | durator/world/game/object/base_object.py:20-30 | every descriptor flag is a single non-zero bit, two different flags share no bit, and each type's same-named flag is `1 << value` |
| `BaseObjects.FlagsOverlap` | durator/world/game/object/base_object.py:20-30 | the flags of two types share a bit exactly when the types are equal |
| `BaseObjects.Lineage` | durator/world/game/object/base_object.py:10-17 | the types named in each mask comment start with OBJECT and end with the type itself |
| `BaseObjects.CommentedMask` | durator/world/game/object/base_object.py:10-17 | the hexadecimal masks of the comments; every one has the OBJECT bit 0x01 set |
| `BaseObjects.MaskOfStep` | durator/world/game/object/base_object.py:10-30 | adding a type to a list adds exactly that type's bit to the OR of their flags |
| `BaseObjects.MaskOfHasFlag` | durator/world/game/object/base_object.py:10-30 | a type's bit is set in the OR of a list's flags exactly when the type is in the list |
| `BaseObjects.TypeMaskMatchesComment` | durator/world/game/object/base_object.py:10-17 | each commented mask (0x01, 0x03, 0x07, 0x09, 0x19, 0x21, 0x41, 0x81) is the OR of the flags of the types it names |
| `BaseObjects.TypeMaskBits` | durator/world/game/object/base_object.py:10-30 | every type's mask has the OBJECT bit, and a type's flag bit is set in it exactly when the comment names that type |
| `BaseObjects.BaseObject.constructor` | durator/world/game/object/base_object.py:40-45 | a fresh object is named "Unnamed object", has map and zone 0 and no field set, so every `get` is None |
| `BaseObjects.BaseObject.Get` | durator/world/game/object/base_object.py:51-53 | `get` returns a value exactly when the field is set, and then it is the stored value |
| `BaseObjects.BaseObject.Guid` | durator/world/game/object/base_object.py:47-49 | `guid` is the GUID field's value, and None while the GUID is unset |
| `BaseObjects.BaseObject.Set` | durator/world/game/object/base_object.py:55-57 | after `set(f, v)`, `get(f)` is `v` and every other field reads as before. Only the field map changes, so name, map, zone and position stay as they were |
| `BaseObjects.FieldStoreScenario` | durator/world/game/object/base_object.py:40-57 | on a fresh object `get` and `guid` are None. After `set(f, v)` `get(f)` is `v`, after `set(f, w)` it is `w`, and another field stays unset |

## Left out

- The listening socket, the accept loop, `KeyboardInterrupt` handling and per-client thread dispatch
  (durator/world/world_server.py:44-79, 118-120): socket I/O and concurrency. `WorldConnection` is
  not part of this model.
- The heartbeat loop, the shutdown event and opening and closing the login-server socket
  (durator/world/world_server.py:81-90, 104-116): network I/O, `time.sleep` and threading. A
  failed connect is not recovered: line 112 sets the socket to None and line 115 calls `close()`
  on it, which raises and ends the heartbeat thread.
- The port is any `int` in the model. In the running program the bind at
  durator/world/world_server.py:59 has already rejected a port outside 0..65535, so the packet
  builder only sees ports of at most five digits. The contracts hold for the wider range.
- `BACKLOG_SIZE` (durator/world/world_server.py:32) is only the listening socket's backlog, so the
  model does not declare it.
- Floating-point arithmetic: the population float is a table of four byte patterns. `Float32.Value`
  shows that the table holds the right values; no float operation is modelled.
- Byte order: `struct.pack("f")` is native-endian; the model fixes little-endian.
- Logging (`LOG`).
- `Position` is an external class kept opaque: the constructor gives it a default value, and no
  method touches it. `ObjectField` is an external enumeration; only `GUID` is named, and the other
  fields are `OtherField(code)`.
- Field values are any Python object; the model stores them by value as a type parameter. Aliasing
  of mutable values stored in the dictionary is not captured.
- `BaseObjects.BaseObject.Get`: Python's `fields.get(f)` returns None both for an unset field and for
  a field set to None. The model's `Option<V>` keeps the two apart, so "returns a value exactly when
  the field is set" is about the model's stored values, not about Python's None.
- Python's `str` holds code points. Dafny's `char` holds Unicode scalar values, so lone surrogates
  cannot be written.
- `StatePacketDecoder.Decode` is not the login server's own reader, which is not part of this
  model. It is the inverse of the documented layout, so the round trips can be stated.
