/** The few Python byte-level primitives the state packet is built from:
    `int.to_bytes(n, 1, "little")`, `str.encode("ascii")` and its inverse
    `bytes.decode("ascii")`. */
module PyBytes {
  import opened Wrappers

  /** One element of a Python `bytes` object. */
  newtype byte = x: int | 0 <= x < 256

  /** The exceptions the serialiser can raise. */
  datatype PyError = OverflowError | UnicodeEncodeError

  /** Every character is in the 7-bit ASCII range. */
  predicate IsAscii(s: string) {
    forall i :: 0 <= i < |s| ==> s[i] as int < 128
  }

  /** `int.to_bytes(n, 1, "little")`: the single byte `n`, or OverflowError when
      `n` does not fit in one unsigned byte. */
  function ToByte(n: int): (r: Result<byte, PyError>)
    ensures r.Success? <==> 0 <= n < 256
    ensures r.Success? ==> r.value as int == n
    ensures r.Failure? ==> r.error == OverflowError
  {
    if 0 <= n < 256 then Success(n as byte) else Failure(OverflowError)
  }

  /** `s.encode("ascii")`: one byte per character, or UnicodeEncodeError as soon
      as a character lies outside ASCII. */
  function EncodeAscii(s: string): (r: Result<seq<byte>, PyError>)
    ensures r.Success? <==> IsAscii(s)
    ensures r.Failure? ==> r.error == UnicodeEncodeError
    ensures r.Success? ==> |r.value| == |s|
    ensures r.Success? ==> forall i :: 0 <= i < |s| ==> r.value[i] as int == s[i] as int
  {
    if s == [] then Success([])
    else if s[0] as int >= 128 then Failure(UnicodeEncodeError)
    else
      var rest :- EncodeAscii(s[1..]);
      Success([s[0] as int as byte] + rest)
  }

  /** `b.decode("ascii")`: one character per byte, or None when a byte is 128 or above. */
  function DecodeAscii(b: seq<byte>): (r: Option<string>)
    ensures r.Some? <==> forall i :: 0 <= i < |b| ==> b[i] < 128
    ensures r.Some? ==> |r.value| == |b|
    ensures r.Some? ==> forall i :: 0 <= i < |b| ==> r.value[i] as int == b[i] as int
  {
    if b == [] then Some([])
    else if b[0] >= 128 then None
    else
      var rest :- DecodeAscii(b[1..]);
      Some([b[0] as int as char] + rest)
  }

  /** Decoding undoes encoding, and encoding undoes decoding. */
  lemma AsciiRoundTrip(s: string, b: seq<byte>)
    ensures EncodeAscii(s) == Success(b) <==> DecodeAscii(b) == Some(s)
  {
    if EncodeAscii(s) == Success(b) {
      var d := DecodeAscii(b);
      assert d.Some? by {
        forall i | 0 <= i < |b| ensures b[i] < 128 {
          assert b[i] as int == s[i] as int;
        }
      }
      assert d.value == s;
    }
    if DecodeAscii(b) == Some(s) {
      assert IsAscii(s) by {
        forall i | 0 <= i < |s| ensures s[i] as int < 128 {
          assert s[i] as int == b[i] as int;
        }
      }
      assert EncodeAscii(s).value == b;
    }
  }

  /** A byte string that matches a string code for code is its ASCII encoding. */
  lemma EncodeAsciiOf(s: string, b: seq<byte>)
    requires |b| == |s|
    requires forall i :: 0 <= i < |s| ==> b[i] < 128 && b[i] as int == s[i] as int
    ensures EncodeAscii(s) == Success(b)
  {
    assert IsAscii(s) by {
      forall i | 0 <= i < |s| ensures s[i] as int < 128 {
        assert b[i] as int == s[i] as int;
      }
    }
    var e := EncodeAscii(s).value;
    assert |e| == |b|;
    forall i | 0 <= i < |s| ensures e[i] == b[i] {
      assert e[i] as int == s[i] as int;
    }
    assert e == b;
  }
}
