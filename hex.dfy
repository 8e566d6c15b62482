/** Hex rendering of byte strings, as `bytes_to_hex` in app.py does it: every
    byte becomes two uppercase digits of the Base16 alphabet (section 8 of
    RFC 4648), and the two-character pieces are joined by a separator that is
    empty unless the caller gives one. */
module Hex {
  import opened Wrappers

  /** A byte as the program sees the elements of `bytes`/`bytearray`. */
  type Byte = b: int | 0 <= b < 256

  /** The sixteen characters of the uppercase Base16 alphabet. */
  predicate IsHexDigit(c: char) {
    '0' <= c <= '9' || 'A' <= c <= 'F'
  }

  /** The uppercase digit that `%X` prints for a nibble. */
  function Digit(n: int): char
    requires 0 <= n < 16
  {
    if n < 10 then ('0' as int + n) as char else ('A' as int + n - 10) as char
  }

  /** The nibble an uppercase digit stands for; None for any other character. */
  function DigitValue(c: char): Option<int> {
    if '0' <= c <= '9' then Some(c as int - '0' as int)
    else if 'A' <= c <= 'F' then Some(c as int - 'A' as int + 10)
    else None
  }

  /** `"%02X" % b`: exactly two uppercase digits, high nibble first. */
  function ByteToHex(b: Byte): (s: string)
    ensures |s| == 2 && IsHexDigit(s[0]) && IsHexDigit(s[1])
    ensures DigitValue(s[0]) == Some(b / 16) && DigitValue(s[1]) == Some(b % 16)
  {
    [Digit(b / 16), Digit(b % 16)]
  }

  /** The list comprehension `["%02X" % b for b in data]`. */
  function Pieces(data: seq<Byte>): seq<string> {
    seq(|data|, i requires 0 <= i < |data| => ByteToHex(data[i]))
  }

  /** `separator.join(pieces)`. */
  function Join(pieces: seq<string>, separator: string): string {
    if |pieces| == 0 then ""
    else if |pieces| == 1 then pieces[0]
    else pieces[0] + separator + Join(pieces[1..], separator)
  }

  /** `bytes_to_hex(data, separator)`. */
  function BytesToHex(data: seq<Byte>, separator: string): string {
    Join(Pieces(data), separator)
  }

  /** Joining n >= 1 two-character pieces gives 2n characters plus n - 1 separators. */
  lemma {:induction false} JoinLength(pieces: seq<string>, separator: string)
    requires forall i :: 0 <= i < |pieces| ==> |pieces[i]| == 2
    ensures |Join(pieces, separator)|
            == if |pieces| == 0 then 0 else 2 * |pieces| + |separator| * (|pieces| - 1)
  {
    if |pieces| > 1 {
      JoinLength(pieces[1..], separator);
      var n, k := |pieces|, |separator|;
      assert k * (n - 1) == k + k * (n - 2);
    }
  }

  /** The length of the rendering: 2 characters per byte and one separator
      between neighbours; the empty input renders as the empty string. */
  lemma HexLength(data: seq<Byte>, separator: string)
    ensures |BytesToHex(data, separator)|
            == if |data| == 0 then 0 else 2 * |data| + |separator| * (|data| - 1)
    ensures |BytesToHex(data, "")| == 2 * |data|
  {
    JoinLength(Pieces(data), separator);
    JoinLength(Pieces(data), "");
  }

  /** Where the pieces and separators of a join sit: with w = 2 + |separator|,
      piece i occupies [i*w, i*w + 2) and, unless it is the last, is followed
      by the separator at [i*w + 2, (i + 1)*w). */
  lemma {:induction false} JoinAt(pieces: seq<string>, separator: string, i: nat)
    requires forall j :: 0 <= j < |pieces| ==> |pieces[j]| == 2
    requires i < |pieces|
    ensures var w, out := 2 + |separator|, Join(pieces, separator);
            && i * w + 2 <= |out|
            && out[i * w .. i * w + 2] == pieces[i]
            && (i + 1 < |pieces| ==> (i + 1) * w <= |out| && out[i * w + 2 .. (i + 1) * w] == separator)
  {
    var w, out := 2 + |separator|, Join(pieces, separator);
    if |pieces| == 1 {
      assert out == pieces[0];
    } else {
      var head, rest := pieces[0] + separator, Join(pieces[1..], separator);
      assert out == head + rest && |head| == w;
      if i == 0 {
        assert out[0..2] == pieces[0];
        assert out[2..w] == separator;
      } else {
        JoinAt(pieces[1..], separator, i - 1);
        var k := (i - 1) * w;
        assert i * w == w + k && (i + 1) * w == w + k + w by {
          assert i * w == (i - 1) * w + w;
          assert (i + 1) * w == i * w + w;
        }
        ShiftSlice(head, rest, w + k, w + k + 2);
        if i + 1 < |pieces| {
          ShiftSlice(head, rest, w + k + 2, w + k + w);
        }
      }
    }
  }

  /** A slice lying wholly after a prefix is the matching slice of the rest. */
  lemma ShiftSlice(prefix: string, rest: string, lo: int, hi: int)
    requires |prefix| <= lo <= hi <= |prefix| + |rest|
    ensures (prefix + rest)[lo..hi] == rest[lo - |prefix|..hi - |prefix|]
  {
  }

  /** The rendering with a separator is the byte pieces joined by it: byte i
      is rendered at offset i*(2 + |separator|) and every pair of neighbours
      is split by one copy of the separator. */
  lemma HexLayout(data: seq<Byte>, separator: string, i: nat)
    requires i < |data|
    ensures var w, out := 2 + |separator|, BytesToHex(data, separator);
            && i * w + 2 <= |out|
            && out[i * w .. i * w + 2] == ByteToHex(data[i])
            && (i + 1 < |data| ==> (i + 1) * w <= |out| && out[i * w + 2 .. (i + 1) * w] == separator)
  {
    JoinAt(Pieces(data), separator, i);
  }

  /** Without a separator the rendering is the first byte's two digits
      followed by the rendering of the rest. */
  lemma UnseparatedCons(data: seq<Byte>)
    requires |data| > 0
    ensures BytesToHex(data, "") == ByteToHex(data[0]) + BytesToHex(data[1..], "")
  {
    assert Pieces(data)[1..] == Pieces(data[1..]);
    if |data| == 1 {
      assert BytesToHex(data[1..], "") == "";
    }
  }

  /** Every character of an unseparated rendering is an uppercase hex digit. */
  lemma {:induction false} HexCharset(data: seq<Byte>)
    ensures forall i :: 0 <= i < |BytesToHex(data, "")| ==> IsHexDigit(BytesToHex(data, "")[i])
  {
    if |data| > 0 {
      UnseparatedCons(data);
      HexCharset(data[1..]);
    }
  }

  /** Reads the rendering back, two digits per byte. Odd length or a character
      outside the uppercase alphabet gives None. */
  function HexToBytes(s: string): (r: Option<seq<Byte>>)
    ensures r.Some? ==> |s| == 2 * |r.value|
  {
    if |s| == 0 then Some([])
    else if |s| == 1 then None
    else
      match (DigitValue(s[0]), DigitValue(s[1]), HexToBytes(s[2..]))
      case (Some(hi), Some(lo), Some(rest)) => Some([16 * hi + lo] + rest)
      case _ => None
  }

  /** Decoding an unseparated rendering gives back the bytes. */
  lemma {:induction false} DecodeEncode(data: seq<Byte>)
    ensures HexToBytes(BytesToHex(data, "")) == Some(data)
  {
    if |data| > 0 {
      UnseparatedCons(data);
      var s := BytesToHex(data, "");
      assert s[2..] == BytesToHex(data[1..], "");
      DecodeEncode(data[1..]);
      assert [data[0]] + data[1..] == data;
    }
  }

  /** Every string the decoder accepts is the rendering of what it decodes to. */
  lemma {:induction false} EncodeDecode(s: string, data: seq<Byte>)
    requires HexToBytes(s) == Some(data)
    ensures BytesToHex(data, "") == s
  {
    if |s| > 0 {
      var hi, lo := DigitValue(s[0]).value, DigitValue(s[1]).value;
      var rest := HexToBytes(s[2..]).value;
      assert data == [16 * hi + lo] + rest;
      EncodeDecode(s[2..], rest);
      UnseparatedCons(data);
      assert data[1..] == rest;
      assert ByteToHex(data[0]) == s[..2];
      assert s == s[..2] + s[2..];
    }
  }

  /** Unseparated renderings of distinct byte strings are distinct. */
  lemma HexInjective(a: seq<Byte>, b: seq<Byte>)
    ensures BytesToHex(a, "") == BytesToHex(b, "") <==> a == b
  {
    DecodeEncode(a);
    DecodeEncode(b);
  }
}
