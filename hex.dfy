/** Base16 text to bytes as `bytes.fromhex` reads it from Python 3.7 on
    (the alphabet of section 8 of RFC 4648, either case): ASCII whitespace
    may stand before any pair of digits, but the two digits of a pair must
    be adjacent, and any non-ASCII character is refused. */
module Hex {
  import opened Consts
  import opened Errors
  import opened Utf8

  /** The characters `bytes.fromhex` skips from Python 3.7 on: space, tab,
      line feed, vertical tab, form feed and carriage return. */
  predicate IsHexSpace(c: CodePoint) {
    c == 0x20 || 0x09 <= c <= 0x0D
  }

  /** The value of a hex digit, or an error for any other character. */
  function HexDigit(c: CodePoint): (r: Result<int>)
    ensures r.Ok? ==> 0 <= r.value < 16
    ensures r.Err? ==> r.error == InvalidHex
    ensures r.Ok? <==> '0' as int <= c <= '9' as int || 'a' as int <= c <= 'f' as int
                       || 'A' as int <= c <= 'F' as int
  {
    if '0' as int <= c <= '9' as int then Ok(c - '0' as int)
    else if 'a' as int <= c <= 'f' as int then Ok(c - 'a' as int + 10)
    else if 'A' as int <= c <= 'F' as int then Ok(c - 'A' as int + 10)
    else Err(InvalidHex)
  }

  /** `bytes.fromhex(s)`: each byte is a pair of adjacent hex digits, high
      digit first; whitespace before a pair is skipped; anything else, or a
      lone final digit, is an error. */
  function FromHex(s: seq<CodePoint>): (r: Result<seq<byte>>)
    ensures r.Ok? ==> 2 * |r.value| <= |s|
    ensures r.Err? ==> r.error == InvalidHex
    decreases |s|
  {
    if s == [] then Ok([])
    else if IsHexSpace(s[0]) then FromHex(s[1..])
    else
      var high :- HexDigit(s[0]);
      if |s| < 2 then Err(InvalidHex)
      else
        var low :- HexDigit(s[1]);
        var rest :- FromHex(s[2..]);
        Ok([high * 16 + low] + rest)
  }

  /** The digit for a value below 16, lower or upper case. */
  function DigitChar(d: int, upper: bool): (c: CodePoint)
    requires 0 <= d < 16
    ensures HexDigit(c) == Ok(d)
  {
    if d < 10 then '0' as int + d
    else if upper then 'A' as int + d - 10
    else 'a' as int + d - 10
  }

  /** Two digits per byte, high digit first: `bytes.hex()` when lower case,
      and its upper-case spelling otherwise. */
  function ToHex(b: seq<byte>, upper: bool): (s: seq<CodePoint>)
    ensures |s| == 2 * |b|
  {
    if b == [] then []
    else [DigitChar(b[0] / 16, upper), DigitChar(b[0] % 16, upper)] + ToHex(b[1..], upper)
  }

  /** Reading back the hex text of any bytes, in either case, gives those
      bytes. */
  lemma {:induction false} HexRoundTrip(b: seq<byte>, upper: bool)
    ensures FromHex(ToHex(b, upper)) == Ok(b)
  {
    if b != [] {
      var s := ToHex(b, upper);
      assert s[2..] == ToHex(b[1..], upper);
      HexRoundTrip(b[1..], upper);
      assert [b[0]] + b[1..] == b;
    }
  }

  /** Whitespace in front of hex text changes nothing. */
  lemma {:induction false} LeadingSpaceSkipped(ws: seq<CodePoint>, s: seq<CodePoint>)
    requires forall i :: 0 <= i < |ws| ==> IsHexSpace(ws[i])
    ensures FromHex(ws + s) == FromHex(s)
  {
    if ws != [] {
      assert (ws + s)[1..] == ws[1..] + s;
      LeadingSpaceSkipped(ws[1..], s);
    } else {
      assert ws + s == s;
    }
  }

  /** What `bytes.fromhex` makes of any text, by what follows its leading
      whitespace `ws`: nothing gives no bytes; a non-digit, a lone digit or
      a digit followed by a non-digit is an error; two digits are one byte,
      high digit first, in front of whatever the rest reads as. */
  lemma {:induction false} FirstPair(ws: seq<CodePoint>, s: seq<CodePoint>)
    requires forall i :: 0 <= i < |ws| ==> IsHexSpace(ws[i])
    requires s == [] || !IsHexSpace(s[0])
    ensures s == [] ==> FromHex(ws + s) == Ok([])
    ensures s != [] && HexDigit(s[0]).Err? ==> FromHex(ws + s) == Err(InvalidHex)
    ensures |s| == 1 ==> FromHex(ws + s) == Err(InvalidHex)
    ensures |s| >= 2 && HexDigit(s[0]).Ok? && HexDigit(s[1]).Err? ==> FromHex(ws + s) == Err(InvalidHex)
    ensures |s| >= 2 && HexDigit(s[0]).Ok? && HexDigit(s[1]).Ok? ==>
              FromHex(ws + s) ==
                (var rest :- FromHex(s[2..]);
                 Ok([HexDigit(s[0]).value * 16 + HexDigit(s[1]).value] + rest))
  {
    LeadingSpaceSkipped(ws, s);
  }

  /** "DEAD" (0x44 0x45 0x41 0x44) is the two bytes 0xDE 0xAD; "D EAD" splits
      a pair and "dea" ends in a lone digit, so both fail. */
  lemma FromHexExamples()
    ensures FromHex([0x44, 0x45, 0x41, 0x44]).Ok?
    ensures FromHex([0x44, 0x45, 0x41, 0x44]).value == [0xDE, 0xAD]
    ensures FromHex([0x44, 0x20, 0x45, 0x41, 0x44]) == Err(InvalidHex)
    ensures FromHex([0x64, 0x65, 0x61]) == Err(InvalidHex)
  {
    var tail: seq<CodePoint> := [0x41, 0x44];
    assert tail[2..] == [];
    assert HexDigit(tail[0]) == Ok(10) && HexDigit(tail[1]) == Ok(13);
    assert FromHex(tail[2..]) == Ok([]);
    assert !IsHexSpace(tail[0]);
    assert FromHex(tail).value == [0xAD];
    var s: seq<CodePoint> := [0x44, 0x45, 0x41, 0x44];
    assert s[2..] == tail;
    assert HexDigit(s[0]) == Ok(13) && HexDigit(s[1]) == Ok(14);
    assert FromHex(s).value == [0xDE] + [0xAD];
    var t: seq<CodePoint> := [0x64, 0x65, 0x61];
    assert t[2..] == [0x61];
  }
}
