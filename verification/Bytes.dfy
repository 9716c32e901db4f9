/** Fixed-width little-endian integers inside byte sequences, as struct.pack_into and struct.unpack_from place them. */
module Bytes {
  import opened Disk

  const U16_LIMIT: int := 0x1_0000
  const U32_LIMIT: int := 0x1_0000_0000
  const I32_LIMIT: int := 0x8000_0000

  predicate IsU16(x: int) { 0 <= x < U16_LIMIT }
  predicate IsU32(x: int) { 0 <= x < U32_LIMIT }
  predicate IsI32(x: int) { -I32_LIMIT <= x < I32_LIMIT }

  function U16(x: int): (b: seq<byte>)
    requires IsU16(x)
    ensures |b| == 2
  {
    [x % 256, x / 256]
  }

  function U32(x: int): (b: seq<byte>)
    requires IsU32(x)
    ensures |b| == 4
  {
    [x % 256, x / 256 % 256, x / 65536 % 256, x / 16777216]
  }

  /** Two's complement. */
  function I32(x: int): (b: seq<byte>)
    requires IsI32(x)
    ensures |b| == 4
  {
    U32(if x < 0 then x + U32_LIMIT else x)
  }

  function U16At(raw: seq<byte>, at: nat): (x: int)
    requires at + 2 <= |raw|
    ensures IsU16(x)
  {
    raw[at] as int + 256 * raw[at + 1] as int
  }

  function U32At(raw: seq<byte>, at: nat): (x: int)
    requires at + 4 <= |raw|
    ensures IsU32(x)
  {
    raw[at] as int + 256 * raw[at + 1] as int + 65536 * raw[at + 2] as int + 16777216 * raw[at + 3] as int
  }

  function I32At(raw: seq<byte>, at: nat): (x: int)
    requires at + 4 <= |raw|
    ensures IsI32(x)
  {
    var u := U32At(raw, at);
    if u < I32_LIMIT then u else u - U32_LIMIT
  }

  /** `raw` holds `part` at offset `at`. */
  ghost predicate HoldsAt(raw: seq<byte>, at: nat, part: seq<byte>) {
    at + |part| <= |raw| && raw[at..at + |part|] == part
  }

  lemma U16Back(raw: seq<byte>, at: nat, x: int)
    requires IsU16(x) && HoldsAt(raw, at, U16(x))
    ensures at + 2 <= |raw| && U16At(raw, at) == x
  {
    var part := raw[at..at + 2];
    assert raw[at] == part[0] && raw[at + 1] == part[1];
  }

  lemma U32Back(raw: seq<byte>, at: nat, x: int)
    requires IsU32(x) && HoldsAt(raw, at, U32(x))
    ensures at + 4 <= |raw| && U32At(raw, at) == x
  {
    var part := raw[at..at + 4];
    assert raw[at] == part[0] && raw[at + 1] == part[1] && raw[at + 2] == part[2] && raw[at + 3] == part[3];
    Digits(x);
  }

  lemma Digits(x: int)
    requires IsU32(x)
    ensures x % 256 + 256 * (x / 256 % 256) + 65536 * (x / 65536 % 256) + 16777216 * (x / 16777216) == x
  {
  }

  /** Whatever four bytes stand there, they are those of the number read. */
  lemma U32Read(raw: seq<byte>, at: nat)
    requires at + 4 <= |raw|
    ensures HoldsAt(raw, at, U32(U32At(raw, at)))
  {
    var x := U32At(raw, at);
    var a, b, c, d := raw[at] as int, raw[at + 1] as int, raw[at + 2] as int, raw[at + 3] as int;
    assert x % 256 == a && x / 256 == b + 256 * c + 65536 * d;
    assert x / 65536 == c + 256 * d && x / 16777216 == d;
    assert x / 256 % 256 == b && x / 65536 % 256 == c;
  }

  lemma I32Read(raw: seq<byte>, at: nat)
    requires at + 4 <= |raw|
    ensures HoldsAt(raw, at, I32(I32At(raw, at)))
  {
    U32Read(raw, at);
  }

  lemma I32Back(raw: seq<byte>, at: nat, x: int)
    requires IsI32(x) && HoldsAt(raw, at, I32(x))
    ensures at + 4 <= |raw| && I32At(raw, at) == x
  {
    U32Back(raw, at, if x < 0 then x + U32_LIMIT else x);
  }

  lemma HoldsSplit(raw: seq<byte>, at: nat, a: seq<byte>, b: seq<byte>)
    requires HoldsAt(raw, at, a + b)
    ensures HoldsAt(raw, at, a) && HoldsAt(raw, at + |a|, b)
  {
    var part := raw[at..at + |a + b|];
    assert forall i :: 0 <= i < |part| ==> raw[at + i] == part[i];
    assert forall i :: 0 <= i < |a| ==> raw[at + i] == a[i];
    var second := raw[at + |a|..at + |a| + |b|];
    forall i | 0 <= i < |b|
      ensures second[i] == b[i]
    {
      assert part[|a| + i] == b[i];
    }
  }

  /** `raw` with `part` written at offset `at`. */
  function Put(raw: seq<byte>, at: nat, part: seq<byte>): (r: seq<byte>)
    requires at + |part| <= |raw|
    ensures |r| == |raw| && r[at..at + |part|] == part
    ensures forall i :: 0 <= i < |raw| && !(at <= i < at + |part|) ==> r[i] == raw[i]
  {
    raw[..at] + part + raw[at + |part|..]
  }

  method PutBytes(raw: array<byte>, at: nat, part: seq<byte>)
    requires at + |part| <= raw.Length
    modifies raw
    ensures raw[..] == Put(old(raw[..]), at, part)
  {
    var i := 0;
    while i < |part|
      invariant 0 <= i <= |part|
      invariant forall j :: 0 <= j < raw.Length ==> raw[j] == if at <= j < at + i then part[j - at] else old(raw[j])
    {
      raw[at + i] := part[i];
      i := i + 1;
    }
  }

  // ---- Runs of 32-bit integers ----

  ghost predicate AllI32(xs: seq<int>) { forall i :: 0 <= i < |xs| ==> IsI32(xs[i]) }
  ghost predicate AllU32(xs: seq<int>) { forall i :: 0 <= i < |xs| ==> IsU32(xs[i]) }

  function I32s(xs: seq<int>): (b: seq<byte>)
    requires AllI32(xs)
    ensures |b| == 4 * |xs|
  {
    if xs == [] then [] else I32s(xs[..|xs| - 1]) + I32(xs[|xs| - 1])
  }

  function U32s(xs: seq<int>): (b: seq<byte>)
    requires AllU32(xs)
    ensures |b| == 4 * |xs|
  {
    if xs == [] then [] else U32s(xs[..|xs| - 1]) + U32(xs[|xs| - 1])
  }

  function I32sAt(raw: seq<byte>, at: nat, n: nat): (xs: seq<int>)
    requires at + 4 * n <= |raw|
    ensures |xs| == n
  {
    seq(n, i requires 0 <= i < n => I32At(raw, at + 4 * i))
  }

  function U32sAt(raw: seq<byte>, at: nat, n: nat): (xs: seq<int>)
    requires at + 4 * n <= |raw|
    ensures |xs| == n
  {
    seq(n, i requires 0 <= i < n => U32At(raw, at + 4 * i))
  }

  lemma {:induction false} I32sBack(raw: seq<byte>, at: nat, xs: seq<int>)
    requires AllI32(xs) && HoldsAt(raw, at, I32s(xs))
    ensures I32sAt(raw, at, |xs|) == xs
  {
    if xs != [] {
      var n := |xs| - 1;
      HoldsSplit(raw, at, I32s(xs[..n]), I32(xs[n]));
      I32sBack(raw, at, xs[..n]);
      I32Back(raw, at + 4 * n, xs[n]);
      assert I32sAt(raw, at, n + 1) == I32sAt(raw, at, n) + [xs[n]];
      assert xs == xs[..n] + [xs[n]];
    }
  }

  lemma {:induction false} U32sBack(raw: seq<byte>, at: nat, xs: seq<int>)
    requires AllU32(xs) && HoldsAt(raw, at, U32s(xs))
    ensures U32sAt(raw, at, |xs|) == xs
  {
    if xs != [] {
      var n := |xs| - 1;
      HoldsSplit(raw, at, U32s(xs[..n]), U32(xs[n]));
      U32sBack(raw, at, xs[..n]);
      U32Back(raw, at + 4 * n, xs[n]);
      assert U32sAt(raw, at, n + 1) == U32sAt(raw, at, n) + [xs[n]];
      assert xs == xs[..n] + [xs[n]];
    }
  }

  // ---- The loops over them ----

  method ReadI32s(raw: array<byte>, at: nat, n: nat) returns (xs: seq<int>)
    requires at + 4 * n <= raw.Length
    ensures xs == I32sAt(raw[..], at, n)
  {
    xs := [];
    var i := 0;
    while i < n
      invariant 0 <= i <= n && xs == I32sAt(raw[..], at, i)
    {
      xs := xs + [I32At(raw[..], at + 4 * i)];
      i := i + 1;
    }
  }

  method ReadU32s(raw: array<byte>, at: nat, n: nat) returns (xs: seq<int>)
    requires at + 4 * n <= raw.Length
    ensures xs == U32sAt(raw[..], at, n)
  {
    xs := [];
    var i := 0;
    while i < n
      invariant 0 <= i <= n && xs == U32sAt(raw[..], at, i)
    {
      xs := xs + [U32At(raw[..], at + 4 * i)];
      i := i + 1;
    }
  }

  lemma PutTwice(raw: seq<byte>, at: nat, a: seq<byte>, b: seq<byte>)
    requires at + |a| + |b| <= |raw|
    ensures Put(Put(raw, at, a), at + |a|, b) == Put(raw, at, a + b)
  {
  }

  method WriteI32s(raw: array<byte>, at: nat, xs: seq<int>)
    requires AllI32(xs) && at + 4 * |xs| <= raw.Length
    modifies raw
    ensures raw[..] == Put(old(raw[..]), at, I32s(xs))
  {
    var i := 0;
    while i < |xs|
      invariant 0 <= i <= |xs| && raw[..] == Put(old(raw[..]), at, I32s(xs[..i]))
    {
      PutTwice(old(raw[..]), at, I32s(xs[..i]), I32(xs[i]));
      assert xs[..i + 1][..i] == xs[..i];
      PutBytes(raw, at + 4 * i, I32(xs[i]));
      i := i + 1;
    }
    assert xs[..i] == xs;
  }

  method WriteU32s(raw: array<byte>, at: nat, xs: seq<int>)
    requires AllU32(xs) && at + 4 * |xs| <= raw.Length
    modifies raw
    ensures raw[..] == Put(old(raw[..]), at, U32s(xs))
  {
    var i := 0;
    while i < |xs|
      invariant 0 <= i <= |xs| && raw[..] == Put(old(raw[..]), at, U32s(xs[..i]))
    {
      PutTwice(old(raw[..]), at, U32s(xs[..i]), U32(xs[i]));
      assert xs[..i + 1][..i] == xs[..i];
      PutBytes(raw, at + 4 * i, U32(xs[i]));
      i := i + 1;
    }
    assert xs[..i] == xs;
  }
}
