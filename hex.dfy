/**
 * `Utils.bytesToHex`: every byte becomes `String.format("%02x", b)`, two
 * lower-case hexadecimal digits of the byte's unsigned value.
 */
module Utils {

  /** A Java `byte`: signed, two's complement, 8 bits. */
  newtype int8 = x: int | -128 <= x < 128

  predicate IsHexDigit(c: char) {
    '0' <= c <= '9' || 'a' <= c <= 'f'
  }

  /** Every character is one of `[0-9a-f]`. */
  predicate IsLowerHex(s: string) {
    forall i :: 0 <= i < |s| ==> IsHexDigit(s[i])
  }

  /** The value `Formatter` prints for a negative `Byte` under `%x`: it adds 2^8. */
  function Unsigned(b: int8): (u: nat)
    ensures u < 256 && (u - b as int) % 256 == 0
  {
    if b < 0 then b as int + 256 else b as int
  }

  /** The numeric value of a hexadecimal digit. */
  function DigitValue(c: char): nat
    requires IsHexDigit(c)
  {
    if c <= '9' then c as int - '0' as int else c as int - 'a' as int + 10
  }

  function HexDigit(n: nat): (c: char)
    requires n < 16
    ensures IsHexDigit(c) && DigitValue(c) == n
  {
    if n < 10 then ('0' as int + n) as char else ('a' as int + (n - 10)) as char
  }

  /** `String.format("%02x", b)`: exactly two digits, zero-padded, whose value
      is the unsigned value of the byte. */
  function ByteHex(b: int8): (r: string)
    ensures |r| == 2 && IsLowerHex(r)
    ensures 16 * DigitValue(r[0]) + DigitValue(r[1]) == Unsigned(b)
  {
    var u := Unsigned(b);
    [HexDigit(u / 16), HexDigit(u % 16)]
  }

  /** The text `bytesToHex` builds for a byte sequence. */
  function Hex(bytes: seq<int8>): (hex: string)
    ensures |hex| == 2 * |bytes|
  {
    if |bytes| == 0 then "" else ByteHex(bytes[0]) + Hex(bytes[1..])
  }

  /** `bytesToHex`: appends the two digits of each byte to a buffer, in order. */
  method BytesToHex(bytes: array<int8>) returns (hex: string)
    ensures hex == Hex(bytes[..])
  {
    hex := "";
    for i := 0 to bytes.Length
      invariant hex == Hex(bytes[..i])
    {
      HexConcat(bytes[..i], [bytes[i]]);
      assert bytes[..i + 1] == bytes[..i] + [bytes[i]];
      hex := hex + ByteHex(bytes[i]);
    }
    assert bytes[..] == bytes[..bytes.Length];
  }

  /** Two bytes with the same two digits are the same byte. */
  lemma ByteHexInjective(a: int8, b: int8)
    requires ByteHex(a) == ByteHex(b)
    ensures a == b
  {
    assert Unsigned(a) == Unsigned(b);
  }

  /** Encoding distributes over concatenation. */
  lemma {:induction false} HexConcat(a: seq<int8>, b: seq<int8>)
    ensures Hex(a + b) == Hex(a) + Hex(b)
  {
    if |a| == 0 {
      assert a + b == b;
    } else {
      assert (a + b)[1..] == a[1..] + b;
      HexConcat(a[1..], b);
    }
  }

  /** Characters 2i and 2i+1 of the encoding are the digits of byte i. */
  lemma {:induction false} HexAt(bytes: seq<int8>, i: nat)
    requires i < |bytes|
    ensures Hex(bytes)[2 * i..2 * i + 2] == ByteHex(bytes[i])
  {
    if i > 0 {
      HexAt(bytes[1..], i - 1);
      assert Hex(bytes)[2 * i..2 * i + 2] == Hex(bytes[1..])[2 * (i - 1)..2 * (i - 1) + 2];
    }
  }

  /** Every character of the encoding is a lower-case hexadecimal digit. */
  lemma {:induction false} HexIsLowerHex(bytes: seq<int8>)
    ensures IsLowerHex(Hex(bytes))
  {
    if |bytes| > 0 {
      HexIsLowerHex(bytes[1..]);
      var h := Hex(bytes);
      forall i | 0 <= i < |h| ensures IsHexDigit(h[i]) {
        if i >= 2 {
          assert h[i] == Hex(bytes[1..])[i - 2];
        }
      }
    }
  }

  /** Distinct byte sequences have distinct encodings: the width is fixed. */
  lemma HexInjective(a: seq<int8>, b: seq<int8>)
    requires Hex(a) == Hex(b)
    ensures a == b
  {
    assert |a| == |b|;
    forall i | 0 <= i < |a| ensures a[i] == b[i] {
      HexAt(a, i);
      HexAt(b, i);
      ByteHexInjective(a[i], b[i]);
    }
  }

  /** The encodings the unit tests expect: the empty input, U+0000, and the
      UTF-8 bytes of U+1F3D and of U+1F3D U+1F5B. */
  lemma HexExamples()
    ensures Hex([]) == ""
    ensures Hex([0]) == "00"
    ensures Hex([-31, -68, -67]) == "e1bcbd"
    ensures Hex([-31, -68, -67, -31, -67, -101]) == "e1bcbde1bd9b"
  {
    ByteExamples();
    assert Hex([-31, -68, -67]) == "e1" + ("bc" + ("bd" + "")) by {
      assert [-31, -68, -67][1..] == [-68, -67] && [-68, -67][1..] == [-67] && [-67][1..] == [];
    }
    assert Hex([-31, -67, -101]) == "e1" + ("bd" + ("9b" + "")) by {
      assert [-31, -67, -101][1..] == [-67, -101] && [-67, -101][1..] == [-101] && [-101][1..] == [];
    }
    HexConcat([-31, -68, -67], [-31, -67, -101]);
    assert [-31, -68, -67] + [-31, -67, -101] == [-31, -68, -67, -31, -67, -101];
  }

  /** The pairs of the bytes in `HexExamples`. */
  lemma ByteExamples()
    ensures ByteHex(0) == "00" && ByteHex(-31) == "e1" && ByteHex(-68) == "bc"
    ensures ByteHex(-67) == "bd" && ByteHex(-101) == "9b"
  {
  }
}
