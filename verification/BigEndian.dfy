/**
  `ReadBigEndian` and `WriteBigEndian` for integers of any byte width: the loops over the buffer,
  and the values they exchange.
 */
module BigEndian {
  import opened Division

  /** The elements of the buffer: a plain `char`, signed. */
  newtype Char = c: int | -128 <= c < 128

  function Power(width: nat): nat {
    if width == 0 then 1 else 256 * Power(width - 1)
  }

  lemma {:induction false} PowerPositive(width: nat)
    ensures Power(width) > 0
  {
    if width > 0 {
      PowerPositive(width - 1);
    }
  }

  /** `static_cast<uint8_t>`. */
  function ToByte(c: Char): (b: nat)
    ensures b < 256
  {
    if c < 0 then c as int + 256 else c as int
  }

  /** `static_cast<char>`. */
  function ToChar(b: nat): Char
    requires b < 256
  {
    if b < 128 then b as Char else (b - 256) as Char
  }

  /** The number a buffer denotes, most significant byte first. */
  function Value(buf: seq<Char>): nat {
    if buf == [] then 0 else Value(buf[..|buf| - 1]) * 256 + ToByte(buf[|buf| - 1])
  }

  /** The low `width` bytes of a number, most significant first. */
  function Bytes(u: nat, width: nat): (buf: seq<Char>)
    ensures |buf| == width
  {
    if width == 0 then [] else Bytes(u / 256, width - 1) + [ToChar(u % 256)]
  }

  /** A value of a signed or unsigned integer type `width` bytes wide. */
  predicate Fits(v: int, width: nat) {
    -(Power(width) / 2) <= v < Power(width)
  }

  /** Conversion of such a value to the unsigned type: modulo the size of the type. */
  function Unsigned(v: int, width: nat): (u: nat)
    requires Fits(v, width)
    ensures u < Power(width)
  {
    if v < 0 then v + Power(width) else v
  }

  /** Conversion back to a signed type of that width. */
  function Signed(u: nat, width: nat): int {
    if u < Power(width) / 2 then u else u - Power(width)
  }

  lemma {:induction false} ValueBound(buf: seq<Char>)
    ensures Value(buf) < Power(|buf|)
  {
    if buf != [] {
      ValueBound(buf[..|buf| - 1]);
    }
  }

  lemma {:induction false} ValueOfBytes(u: nat, width: nat)
    requires u < Power(width)
    ensures Value(Bytes(u, width)) == u
  {
    if width > 0 {
      ValueOfBytes(u / 256, width - 1);
      var front := Bytes(u / 256, width - 1);
      assert (front + [ToChar(u % 256)])[..width - 1] == front;
    }
  }

  lemma {:induction false} BytesOfValue(buf: seq<Char>)
    ensures Bytes(Value(buf), |buf|) == buf
  {
    if buf != [] {
      var n := |buf| - 1;
      BytesOfValue(buf[..n]);
      assert Value(buf) / 256 == Value(buf[..n]) && Value(buf) % 256 == ToByte(buf[n]);
      assert buf == buf[..n] + [buf[n]];
    }
  }

  /** Reading what was written returns the value, at every width, for unsigned types and for signed. */
  lemma ReadOfWritten(v: int, width: nat)
    requires width > 0 && Fits(v, width)
    ensures v >= 0 ==> Value(Bytes(Unsigned(v, width), width)) == v
    ensures v < Power(width) / 2 ==> Signed(Value(Bytes(Unsigned(v, width), width)), width) == v
  {
    ValueOfBytes(Unsigned(v, width), width);
    PowerIsEven(width);
  }

  /** Converting to the signed type and back is the identity. */
  lemma UnsignedOfSigned(u: nat, width: nat)
    requires width > 0 && u < Power(width)
    ensures Fits(Signed(u, width), width) && Unsigned(Signed(u, width), width) == u
  {
    PowerIsEven(width);
  }

  lemma PowerIsEven(width: nat)
    requires width > 0
    ensures Power(width) == 2 * (Power(width) / 2)
  {
    var half := 128 * Power(width - 1);
    assert Power(width) == 2 * half;
  }

  /** Writing what was read restores the bytes, whether it was read as unsigned or as signed. */
  lemma WrittenOfRead(buf: seq<Char>, u: nat, width: nat)
    requires u == Value(buf) && width == |buf| > 0
    ensures u < Power(width) && Bytes(Unsigned(u, width), width) == buf
    ensures Fits(Signed(u, width), width) && Bytes(Unsigned(Signed(u, width), width), width) == buf
  {
    ValueBound(buf);
    BytesOfValue(buf);
    UnsignedOfSigned(u, width);
  }

  // ----- The loops

  /** `u <<= 8` in a type `width` bytes wide. */
  function Shifted(u: nat, width: nat): nat {
    PowerPositive(width);
    u * 256 % Power(width)
  }

  /** Shifting left by a byte loses nothing while the accumulator still has room. */
  lemma ShiftFits(u: nat, i: nat, width: nat)
    requires u < Power(i) && i < width
    ensures Shifted(u, width) == u * 256
  {
    PowerMonotone(i + 1, width);
    SmallMod(u * 256, Power(width));
  }

  lemma {:induction false} PowerMonotone(a: nat, b: nat)
    requires a <= b
    ensures Power(a) <= Power(b)
  {
    if a < b {
      PowerMonotone(a, b - 1);
    }
  }

  method ReadBigEndian(buf: array<Char>, width: nat) returns (u: nat)
    requires 0 < width <= buf.Length
    ensures u == Value(buf[..width])
  {
    u := ToByte(buf[0]);
    assert buf[..1] == [buf[0]];
    var i := 1;
    while i < width
      invariant 1 <= i <= width && u == Value(buf[..i])
    {
      ValueBound(buf[..i]);
      ShiftFits(u, i, width);
      assert buf[..i + 1] == buf[..i] + [buf[i]];
      u := Shifted(u, width);
      u := u + ToByte(buf[i]);  // `|`: the low byte is clear
      i := i + 1;
    }
  }

  method WriteBigEndian(buf: array<Char>, width: nat, v: int)
    requires width <= buf.Length && Fits(v, width)
    modifies buf
    ensures buf[..width] == Bytes(Unsigned(v, width), width)
    ensures buf[width..] == old(buf[width..])
  {
    var u := Unsigned(v, width);
    ghost var all := u;
    var i := 0;
    while i < width
      invariant i <= width
      invariant Bytes(all, width) == Bytes(u, width - i) + buf[width - i..width]
      invariant buf[width..] == old(buf[width..])
    {
      buf[width - i - 1] := ToChar(u % 256);
      u := u / 256;
      i := i + 1;
    }
  }

  // ----- Which byte is which

  /** The first byte is the most significant one. */
  lemma {:induction false} MostSignificantFirst(buf: seq<Char>)
    requires buf != []
    ensures Value(buf) == ToByte(buf[0]) * Power(|buf| - 1) + Value(buf[1..])
  {
    var n := |buf| - 1;
    if n == 0 {
      assert Value(buf[..0]) == 0 && Power(0) == 1;
    } else {
      MostSignificantFirst(buf[..n]);
      assert buf[..n][1..] == buf[1..][..n - 1] && buf[1..][n - 1] == buf[n];
      Regroups(ToByte(buf[0]), Power(n - 1), Value(buf[1..][..n - 1]), ToByte(buf[n]));
    }
  }

  lemma Regroups(a: nat, p: nat, v: nat, b: nat)
    ensures (a * p + v) * 256 + b == a * (256 * p) + (v * 256 + b)
  {}

  /** Characters, and values of signed types, stand for the same number as their unsigned form, modulo the
      size of the type. */
  lemma ConversionsAreModular(c: Char, b: nat, v: int, width: nat)
    requires b < 256 && Fits(v, width)
    ensures ToByte(c) - c as int == 0 || ToByte(c) - c as int == 256
    ensures ToByte(ToChar(b)) == b && ToChar(ToByte(c)) == c
    ensures Unsigned(v, width) - v == 0 || Unsigned(v, width) - v == Power(width)
  {}
}
