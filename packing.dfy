/** The big-endian ("network order", `!`) formats of Python's `struct.pack`
    that the encoder uses: `!?` for booleans, `!B !H !I !Q` for unsigned and
    `!b !h !i !q` for two's complement signed integers of 1, 2, 4 and 8 bytes. */
module Packing {
  import opened Consts
  import opened Errors

  /** 256 to the power `n`: the number of values `n` bytes can hold. */
  function Pow256(n: nat): (r: nat)
    ensures r >= 1
  {
    if n == 0 then 1 else 256 * Pow256(n - 1)
  }

  lemma Pow256Values()
    ensures Pow256(1) == 0x100 && Pow256(2) == 0x1_0000
    ensures Pow256(4) == 0x1_0000_0000 && Pow256(8) == 0x1_0000_0000_0000_0000
  {
    assert Pow256(2) == 0x1_0000;
    assert Pow256(3) == 0x100_0000;
    assert Pow256(4) == 0x1_0000_0000;
    assert Pow256(6) == 0x1_0000_0000_0000;
    assert Pow256(8) == 0x1_0000_0000_0000_0000;
  }

  /** The unsigned integer that the bytes `s` spell most significant first. */
  function FromBigEndian(s: seq<byte>): (r: nat)
    ensures r < Pow256(|s|)
  {
    if s == [] then 0 else FromBigEndian(s[..|s| - 1]) * 256 + s[|s| - 1]
  }

  /** The `width` bytes that spell `v` most significant first. */
  function BigEndian(v: nat, width: nat): (r: seq<byte>)
    requires v < Pow256(width)
    ensures |r| == width
  {
    if width == 0 then []
    else
      DivisionBound(v, Pow256(width - 1));
      BigEndian(v / 256, width - 1) + [v % 256]
  }

  lemma DivisionBound(v: nat, p: nat)
    requires v < 256 * p
    ensures v / 256 < p
  {
  }

  /** Decoding the bytes of `BigEndian(v, width)` gives `v` back. */
  lemma {:induction false} BigEndianRoundTrip(v: nat, width: nat)
    requires v < Pow256(width)
    ensures FromBigEndian(BigEndian(v, width)) == v
  {
    if width > 0 {
      DivisionBound(v, Pow256(width - 1));
      var s := BigEndian(v, width);
      assert s[..|s| - 1] == BigEndian(v / 256, width - 1);
      BigEndianRoundTrip(v / 256, width - 1);
    }
  }

  /** Two byte strings of one width that spell the same number are equal. */
  lemma {:induction false} FromBigEndianInjective(s: seq<byte>, t: seq<byte>)
    requires |s| == |t| && FromBigEndian(s) == FromBigEndian(t)
    ensures s == t
  {
    if s != [] {
      var n := |s|;
      FromBigEndianInjective(s[..n - 1], t[..n - 1]);
      assert s == s[..n - 1] + [s[n - 1]];
      assert t == t[..n - 1] + [t[n - 1]];
    }
  }

  /** A `struct` format character of the encoder. */
  datatype Format =
    | BooleanFormat        // '!?'
    | Unsigned(size: nat)  // '!B', '!H', '!I', '!Q'
    | Signed(size: nat)    // '!b', '!h', '!i', '!q'
  {
    /** The number of bytes the format packs. */
    function Size(): nat {
      match this
      case BooleanFormat => 1
      case Unsigned(n) => n
      case Signed(n) => n
    }

    /** The values `struct.pack` accepts for this format. */
    predicate Fits(v: int) {
      match this
      case BooleanFormat => true
      case Unsigned(n) => 0 <= v < Pow256(n)
      case Signed(n) => -(Pow256(n) / 2) <= v < Pow256(n) / 2
    }
  }

  /** `struct.pack(format, v)`; a value that does not fit raises `struct.error`.
      `!?` packs the truth of the value. */
  function Pack(f: Format, v: int): (r: Result<seq<byte>>)
    ensures r.Ok? <==> f.Fits(v)
    ensures r.Err? ==> r.error == PackOverflow
    ensures r.Ok? ==> |r.value| == f.Size()
  {
    if !f.Fits(v) then Err(PackOverflow)
    else
      match f
      case BooleanFormat => Ok([if v != 0 then 1 else 0])
      case Unsigned(n) => Ok(BigEndian(v, n))
      case Signed(n) => Ok(BigEndian(if v < 0 then v + Pow256(n) else v, n))
  }

  /** `struct.unpack(format, s)[0]`, with a boolean read as 0 or 1. */
  function Unpack(f: Format, s: seq<byte>): int {
    match f
    case BooleanFormat => if |s| > 0 && s[0] != 0 then 1 else 0
    case Unsigned(_) => FromBigEndian(s)
    case Signed(_) =>
      var u := FromBigEndian(s);
      if u >= Pow256(|s|) / 2 then u - Pow256(|s|) else u
  }

  /** Unpacking what was packed gives the value back (a boolean as 0 or 1). */
  lemma PackRoundTrip(f: Format, v: int)
    requires f.Fits(v)
    requires f.BooleanFormat? ==> v == 0 || v == 1
    ensures Unpack(f, Pack(f, v).value) == v
  {
    match f
    case BooleanFormat =>
    case Unsigned(n) =>
      BigEndianRoundTrip(v, n);
    case Signed(n) =>
      BigEndianRoundTrip(if v < 0 then v + Pow256(n) else v, n);
  }
}
