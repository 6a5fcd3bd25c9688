/** UTF-8 as `str.encode('utf-8', 'strict')` produces it (section 3 of
    RFC 3629).  A Python `str` is a sequence of code points in
    [0, 0x10FFFF]; the surrogates U+D800..U+DFFF are code points a `str` can
    hold but that the strict encoder refuses. */
module Utf8 {
  import opened Consts
  import opened Errors

  type CodePoint = c: int | 0 <= c <= 0x10FFFF

  predicate IsSurrogate(c: CodePoint) {
    0xD800 <= c <= 0xDFFF
  }

  /** The bytes of one code point: 1 to 4 of them, by magnitude. */
  function EncodeCodePoint(c: CodePoint): (r: seq<byte>)
    ensures 1 <= |r| <= 4
    ensures |r| == 1 <==> c < 0x80
    ensures |r| == 2 <==> 0x80 <= c < 0x800
    ensures |r| == 3 <==> 0x800 <= c < 0x10000
  {
    // c1, c2 and c3 drop six payload bits at a time
    var c1 := c / 0x40;
    var c2 := c1 / 0x40;
    var c3 := c2 / 0x40;
    if c < 0x80 then [c]
    else if c < 0x800 then [0xC0 + c1, 0x80 + c % 0x40]
    else if c < 0x10000 then [0xE0 + c2, 0x80 + c1 % 0x40, 0x80 + c % 0x40]
    else [0xF0 + c3, 0x80 + c2 % 0x40, 0x80 + c1 % 0x40, 0x80 + c % 0x40]
  }

  /** Strict encoding: the code points' bytes in order, or an error at the
      first surrogate. */
  function Encode(s: seq<CodePoint>): (r: Result<seq<byte>>)
    ensures r.Ok? <==> forall i :: 0 <= i < |s| ==> !IsSurrogate(s[i])
    ensures r.Err? ==> r.error == EncodeError
    ensures r.Ok? ==> |s| <= |r.value| <= 4 * |s|
  {
    if s == [] then Ok([])
    else if IsSurrogate(s[0]) then Err(EncodeError)
    else
      var rest :- Encode(s[1..]);
      Ok(EncodeCodePoint(s[0]) + rest)
  }

  /** The number of bytes a sequence of 1 to 4 starts with, by its lead byte;
      0 for a continuation byte or a byte no encoding starts with. */
  function SequenceWidth(lead: byte): nat {
    if lead < 0x80 then 1
    else if 0xC0 <= lead < 0xE0 then 2
    else if 0xE0 <= lead < 0xF0 then 3
    else if 0xF0 <= lead < 0xF8 then 4
    else 0
  }

  /** The code point a sequence of `SequenceWidth(b[0])` bytes stands for. */
  function DecodeCodePoint(b: seq<byte>): int
    requires |b| >= 1 && |b| == SequenceWidth(b[0])
  {
    var lead: int := b[0];
    if |b| == 1 then lead
    else if |b| == 2 then (lead - 0xC0) * 0x40 + Low6(b[1])
    else if |b| == 3 then (lead - 0xE0) * 0x1000 + Low6(b[1]) * 0x40 + Low6(b[2])
    else (lead - 0xF0) * 0x40000 + Low6(b[1]) * 0x1000 + Low6(b[2]) * 0x40 + Low6(b[3])
  }

  /** Every byte after the lead has the continuation form 10xxxxxx. */
  predicate ContinuationsValid(b: seq<byte>) {
    forall i :: 1 <= i < |b| ==> 0x80 <= b[i] < 0xC0
  }

  /** The six payload bits of a continuation byte. */
  function Low6(b: byte): int {
    b as int % 0x40
  }

  /** Reading UTF-8 back into code points; `None` for input no encoding
      yields. */
  function Decode(b: seq<byte>): Option<seq<CodePoint>>
    decreases |b|
  {
    if b == [] then Some([])
    else
      var w := SequenceWidth(b[0]);
      if w == 0 || |b| < w || !ContinuationsValid(b[..w]) then None
      else
        var c := DecodeCodePoint(b[..w]);
        if !(0 <= c <= 0x10FFFF) then None
        else
          match Decode(b[w..])
          case None => None
          case Some(rest) => Some([c as CodePoint] + rest)
  }

  /** The lead byte of a code point's encoding announces its width, and the
      bytes decode to the code point. */
  lemma CodePointRoundTrip(c: CodePoint)
    ensures SequenceWidth(EncodeCodePoint(c)[0]) == |EncodeCodePoint(c)|
    ensures ContinuationsValid(EncodeCodePoint(c))
    ensures DecodeCodePoint(EncodeCodePoint(c)) == c
  {
    EncodedContinuations(c);
    var c1 := c / 0x40;
    var c2 := c1 / 0x40;
    var c3 := c2 / 0x40;
    SplitLow6(c);
    SplitLow6(c1);
    SplitLow6(c2);
    ContinuationPayload(c % 0x40);
    ContinuationPayload(c1 % 0x40);
    ContinuationPayload(c2 % 0x40);
    if c < 0x80 {
    } else if c < 0x800 {
      assert c == c1 * 0x40 + c % 0x40;
    } else if c < 0x10000 {
      assert c == (c2 * 0x40 + c1 % 0x40) * 0x40 + c % 0x40;
    } else {
      assert c == ((c3 * 0x40 + c2 % 0x40) * 0x40 + c1 % 0x40) * 0x40 + c % 0x40;
    }
  }

  /** Every byte of a code point's encoding after the first is a
      continuation byte. */
  lemma EncodedContinuations(c: CodePoint)
    ensures ContinuationsValid(EncodeCodePoint(c))
  {
    var r := EncodeCodePoint(c);
    forall i | 1 <= i < |r|
      ensures 0x80 <= r[i] < 0xC0
    {
    }
  }

  /** A number is its six low bits plus 0x40 times the rest. */
  lemma SplitLow6(x: int)
    requires x >= 0
    ensures x == (x / 0x40) * 0x40 + x % 0x40 && 0 <= x % 0x40 < 0x40
  {
  }

  /** A continuation byte carries its six payload bits. */
  lemma ContinuationPayload(p: int)
    requires 0 <= p < 0x40
    ensures Low6(0x80 + p) == p
  {
  }

  /** A lead byte followed by a byte that is not a continuation, such as
      C3 29, or a stray continuation byte such as 80, decodes to nothing. */
  lemma DecodeRefusesBadContinuation()
    ensures Decode([0xC3, 0x29]) == None
    ensures Decode([0x80]) == None
  {
    var b: seq<byte> := [0xC3, 0x29];
    assert b[..2][1] == 0x29;
  }

  /** Decoding what strict encoding produced gives the text back. */
  lemma {:induction false} EncodeRoundTrip(s: seq<CodePoint>)
    requires Encode(s).Ok?
    ensures Decode(Encode(s).value) == Some(s)
  {
    if s != [] {
      var head := EncodeCodePoint(s[0]);
      var rest := Encode(s[1..]).value;
      var b := Encode(s).value;
      assert b == head + rest;
      CodePointRoundTrip(s[0]);
      assert b[..|head|] == head;
      assert b[|head|..] == rest;
      EncodeRoundTrip(s[1..]);
      assert [s[0]] + s[1..] == s;
    }
  }

  /** Encoding distributes over concatenation of texts. */
  lemma {:induction false} EncodeAppend(s: seq<CodePoint>, t: seq<CodePoint>)
    requires Encode(s).Ok? && Encode(t).Ok?
    ensures Encode(s + t) == Ok(Encode(s).value + Encode(t).value)
  {
    var u := Encode(t).value;
    if s != [] {
      var h, r := EncodeCodePoint(s[0]), Encode(s[1..]).value;
      assert Encode(s).value == h + r;
      assert (s + t)[0] == s[0] && (s + t)[1..] == s[1..] + t;
      EncodeAppend(s[1..], t);
      assert Encode(s + t) == Ok(h + (r + u));
      AppendAssociates(h, r, u);
    } else {
      assert s + t == t && Encode(s).value == [];
      assert [] + u == u;
    }
  }

  lemma AppendAssociates<T>(a: seq<T>, b: seq<T>, c: seq<T>)
    ensures a + (b + c) == (a + b) + c
  {
  }

  /** A text of code points below 0x80 encodes to exactly those values. */
  lemma {:induction false} AsciiEncodesToItself(s: seq<CodePoint>)
    requires forall i :: 0 <= i < |s| ==> s[i] < 0x80
    ensures Encode(s).Ok?
    ensures |Encode(s).value| == |s|
    ensures forall i :: 0 <= i < |s| ==> Encode(s).value[i] == s[i]
  {
    if s != [] {
      AsciiEncodesToItself(s[1..]);
    }
  }
}
