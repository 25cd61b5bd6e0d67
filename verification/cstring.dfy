/**
 NUL-terminated strings carried in a byte payload.

 The set-configuration handler turns its payload into a `std::string` by
 reading the bytes as a C string: everything before the first NUL byte.
 A `string` here holds one character per byte. A payload that holds no NUL
 byte is taken whole: what C++ would read past the end of the buffer is not
 part of this model.
 */
module CString {
  import opened Types

  /** The character that stands for byte `b`. */
  function CharOf(b: byte): char {
    (b as int) as char
  }

  /** True when every character of `s` stands for one byte. */
  predicate IsByteString(s: string) {
    forall i :: 0 <= i < |s| ==> (s[i] as int) < 0x100
  }

  /** True when `s` can be written as a C string: byte characters, no NUL. */
  predicate IsCText(s: string) {
    IsByteString(s) && forall i :: 0 <= i < |s| ==> s[i] != '\0'
  }

  /** The C string that starts at the beginning of `p`. */
  function Decode(p: seq<byte>): (r: string)
    ensures |r| <= |p|
    ensures forall i :: 0 <= i < |r| ==> r[i] == CharOf(p[i])
    ensures IsCText(r)
    ensures |r| < |p| ==> p[|r|] == 0
  {
    if |p| == 0 || p[0] == 0 then ""
    else [CharOf(p[0])] + Decode(p[1..])
  }

  /** The bytes of the C string `s`, NUL terminator included. */
  function Encode(s: string): (p: seq<byte>)
    requires IsCText(s)
    ensures |p| == |s| + 1 && p[|s|] == 0
    ensures forall i :: 0 <= i < |s| ==> CharOf(p[i]) == s[i] && p[i] != 0
  {
    if |s| == 0 then [0]
    else [(s[0] as int) as byte] + Encode(s[1..])
  }

  /** Decoding reads a payload up to its first NUL and no further: whatever
      follows the terminator is ignored. */
  lemma {:induction false} DecodeStopsAtNul(p: seq<byte>, rest: seq<byte>)
    ensures Decode(p + [0] + rest) == Decode(p + [0])
  {
    if |p| == 0 {
      assert (p + [0] + rest)[0] == 0;
    } else if p[0] == 0 {
      assert (p + [0] + rest)[0] == 0;
    } else {
      assert (p + [0] + rest)[1..] == p[1..] + [0] + rest;
      assert (p + [0])[1..] == p[1..] + [0];
      DecodeStopsAtNul(p[1..], rest);
    }
  }

  /** Encoding a C string and decoding it gives back the string, whatever
      bytes follow the terminator in the buffer. */
  lemma {:induction false} DecodeEncode(s: string, rest: seq<byte>)
    requires IsCText(s)
    ensures Decode(Encode(s) + rest) == s
  {
    if |s| == 0 {
      assert (Encode(s) + rest)[0] == 0;
    } else {
      var e := Encode(s);
      assert e[0] != 0;
      assert (e + rest)[1..] == Encode(s[1..]) + rest;
      DecodeEncode(s[1..], rest);
    }
  }
}
