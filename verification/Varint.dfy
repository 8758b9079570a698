/** Unsigned LEB128 lengths, as the multiformats unsigned-varint specification defines them. */
module Varint {
  import opened Bytes

  /** varint.encode: seven bits a byte, least significant group first, high bit on all but the last. */
  function Encode(n: nat): (b: Bytes)
    ensures b != []
  {
    if n < 128 then [n] else [n % 128 + 128] + Encode(n / 128)
  }

  /** What reading one varint off a byte stream can give. */
  datatype Reading =
    | Value(n: nat, rest: Bytes)
    | AtEnd      // no byte at all
    | Truncated  // the stream ended between two bytes of the number

  function Decode(s: Bytes): (r: Reading)
    ensures r.Value? ==> |r.rest| < |s| && r.rest == s[|s| - |r.rest|..]
  {
    if s == [] then AtEnd
    else if s[0] < 128 then Value(s[0], s[1..])
    else match Decode(s[1..])
      case Value(n, rest) => Value(s[0] - 128 + 128 * n, rest)
      case _ => Truncated
  }

  lemma {:induction false} DecodeEncode(n: nat, rest: Bytes)
    ensures Decode(Encode(n) + rest) == Value(n, rest)
  {
    var s := Encode(n) + rest;
    if n < 128 {
      assert s[1..] == rest;
    } else {
      assert s[1..] == Encode(n / 128) + rest;
      DecodeEncode(n / 128, rest);
    }
  }

  /** A number cut short is never mistaken for another number. */
  lemma {:induction false} DecodeCut(n: nat, k: nat)
    requires k < |Encode(n)|
    ensures Decode(Encode(n)[..k]) == if k == 0 then AtEnd else Truncated
  {
    var s := Encode(n)[..k];
    if k > 0 {
      assert n >= 128;
      assert s[1..] == Encode(n / 128)[..k - 1];
      DecodeCut(n / 128, k - 1);
    }
  }

  /** Bytes end inside a number exactly when there are some and all of them announce another. */
  lemma {:induction false} TruncatedExactly(s: Bytes)
    ensures Decode(s) == Truncated <==> s != [] && forall i :: 0 <= i < |s| ==> s[i] >= 128
  {
    if s != [] && s[0] >= 128 {
      TruncatedExactly(s[1..]);
      assert forall i :: 1 <= i < |s| ==> s[i] == s[1..][i - 1];
      assert Decode(s) == Truncated <==> !Decode(s[1..]).Value?;
    }
  }

  /** The place value of the k-th group of seven bits. */
  function Scale(k: nat): (p: nat)
    ensures p > 0
  {
    if k == 0 then 1 else 128 * Scale(k - 1)
  }

  lemma ScaleOne()
    ensures Scale(0) == 1
  {
  }

  /** A group of seven bits moved k groups to the left. */
  function Shifted(v: nat, k: nat): (n: nat) {
    NoProductIsNegative(v, Scale(k));
    v * Scale(k)
  }

  lemma NoProductIsNegative(v: nat, p: nat)
    ensures v * p >= 0
  {
  }

  /** The reading of a whole number when k groups worth acc were consumed before the reading r of the rest. */
  function Resume(r: Reading, acc: nat, k: nat): Reading {
    match r
    case Value(n, rest) => Value(acc + Shifted(n, k), rest)
    case AtEnd => if k == 0 then AtEnd else Truncated
    case Truncated => Truncated
  }

  lemma ResumeStart(s: Bytes)
    ensures Resume(Decode(s), 0, 0) == Decode(s)
  {
  }

  lemma ResumeEmpty(acc: nat, k: nat)
    ensures Resume(Decode([]), acc, k) == if k == 0 then AtEnd else Truncated
  {
  }

  lemma ResumeLast(s: Bytes, acc: nat, k: nat)
    requires s != [] && s[0] < 128
    ensures Resume(Decode(s), acc, k) == Value(acc + Shifted(s[0], k), s[1..])
  {
  }

  lemma ShiftedGroup(v: nat, p: nat, n: nat)
    ensures (v + 128 * n) * p == v * p + n * (128 * p)
  {
    assert (128 * n) * p == n * (128 * p);
  }

  lemma ShiftedMore(v: nat, n: nat, k: nat)
    ensures Shifted(v + 128 * n, k) == Shifted(v, k) + Shifted(n, k + 1)
  {
    ShiftedGroup(v, Scale(k), n);
    assert Scale(k + 1) == 128 * Scale(k);
  }

  lemma ResumeMore(s: Bytes, v: nat, acc: nat, k: nat)
    requires s != [] && s[0] == v + 128
    ensures Resume(Decode(s), acc, k) == Resume(Decode(s[1..]), acc + Shifted(v, k), k + 1)
  {
    var tail := Decode(s[1..]);
    assert Decode(s) == if tail.Value? then Value(v + 128 * tail.n, tail.rest) else Truncated;
    hide Shifted, Decode;
    if tail.Value? {
      ShiftedMore(v, tail.n, k);
    }
  }

  lemma GroupAtMost(v: nat, p: nat)
    requires v < 128
    ensures v * p <= 127 * p
  {
    assert (127 - v) * p == 127 * p - v * p;
  }

  lemma GroupFits(acc: nat, v: nat, k: nat)
    requires acc < Scale(k) && v < 128
    ensures acc + Shifted(v, k) < Scale(k + 1)
  {
    var p := Scale(k);
    GroupAtMost(v, p);
    assert Scale(k + 1) == 128 * p;
  }

  /** Python's | on numbers that are not negative, bit by bit. */
  function Or(a: nat, b: nat): (c: nat) {
    if a == 0 then b
    else 2 * Or(a / 2, b / 2) + if a % 2 == 1 || b % 2 == 1 then 1 else 0
  }

  function Pow2(n: nat): (p: nat) {
    if n == 0 then 1 else 2 * Pow2(n - 1)
  }

  lemma HalfShifted(v: nat, p: nat)
    ensures (v * (2 * p)) / 2 == v * p && (v * (2 * p)) % 2 == 0
  {
    assert v * (2 * p) == 2 * (v * p);
  }

  /** Numbers without a common bit are or-ed by adding them. */
  lemma {:induction false} OrOfDisjointAdds(a: nat, v: nat, n: nat)
    requires a < Pow2(n)
    ensures v * Pow2(n) >= 0 && Or(a, v * Pow2(n)) == a + v * Pow2(n)
  {
    NoProductIsNegative(v, Pow2(n));
    if a > 0 {
      HalfShifted(v, Pow2(n - 1));
      OrOfDisjointAdds(a / 2, v, n - 1);
    }
  }

  lemma {:induction false} ScaleIsPow2(k: nat)
    ensures Scale(k) == Pow2(7 * k)
  {
    if k > 0 {
      ScaleIsPow2(k - 1);
      var n := 7 * (k - 1);
      assert Pow2(n + 2) == 4 * Pow2(n);
      assert Pow2(n + 4) == 4 * Pow2(n + 2);
      assert Pow2(n + 6) == 4 * Pow2(n + 4);
    }
  }

  /** A group of seven bits meets no bit read before, so or-ing it in is adding it, and it leaves room for the next. */
  lemma GroupOrAdds(acc: nat, v: nat, k: nat)
    requires acc < Scale(k) && v < 128
    ensures Or(acc, Shifted(v, k)) == acc + Shifted(v, k) < Scale(k + 1)
  {
    ScaleIsPow2(k);
    OrOfDisjointAdds(acc, v, 7 * k);
    GroupFits(acc, v, k);
  }

  // ---------------------------------------------------------------------
  // What the bytes of a number mean
  // ---------------------------------------------------------------------

  function Times(v: nat, p: nat): nat {
    NoProductIsNegative(v, p);
    v * p
  }

  /** The low seven bits of each byte, the k-th weighted with 2 to the power 7k. */
  function Worth(b: Bytes): nat {
    if b == [] then 0
    else
      var n := |b| - 1;
      Worth(b[..n]) + Times(b[n] % 128, Pow2(7 * n))
  }

  /** A number's bytes: all but the last announce another. */
  ghost predicate IsNumber(b: Bytes) {
    b != [] && b[|b| - 1] < 128 && forall i :: 0 <= i < |b| - 1 ==> b[i] >= 128
  }

  lemma Weigh(x: nat, n: nat)
    requires n > 0
    ensures Times(x, Pow2(7 * n)) == 128 * Times(x, Pow2(7 * (n - 1)))
  {
    ScaleIsPow2(n);
    ScaleIsPow2(n - 1);
    assert Scale(n) == 128 * Scale(n - 1);
    hide Scale, Pow2;
    Scaled(x, Scale(n - 1));
  }

  lemma Scaled(x: nat, p: nat)
    ensures x * (128 * p) == 128 * (x * p)
  {
  }

  lemma {:induction false} WorthCons(b: Bytes)
    requires b != []
    ensures Worth(b) == b[0] % 128 + 128 * Worth(b[1..])
    decreases |b|
  {
    var n := |b| - 1;
    if n == 0 {
      assert b[..0] == [] == b[1..];
      assert Pow2(0) == 1;
    } else {
      var tail := b[1..];
      WorthCons(b[..n]);
      assert b[..n][1..] == tail[..n - 1] && tail[n - 1] == b[n];
      hide Times, Pow2;
      Weigh(b[n] % 128, n);
    }
  }

  /** A number read is the worth of its bytes, which end at the first that does not announce another. */
  lemma {:induction false} DecodeMeans(b: Bytes, rest: Bytes)
    requires IsNumber(b)
    ensures Decode(b + rest) == Value(Worth(b), rest)
    decreases |b|
  {
    hide Worth;
    var s := b + rest;
    assert s[0] == b[0] && s[1..] == b[1..] + rest;
    WorthCons(b);
    if |b| > 1 {
      NumberTail(b);
      hide IsNumber;
      DecodeMeans(b[1..], rest);
    } else {
      assert b[1..] == [];
      assert [] + rest == rest;
      NothingIsWorthNothing();
    }
  }

  lemma NumberTail(b: Bytes)
    requires IsNumber(b) && |b| > 1
    ensures IsNumber(b[1..]) && b[0] >= 128
  {
  }

  lemma NothingIsWorthNothing()
    ensures Worth([]) == 0
  {
  }

  /** Writing a number gives bytes worth it, as few as there can be, and nothing else does. */
  lemma {:induction false} EncodeMeans(n: nat)
    ensures IsNumber(Encode(n)) && Worth(Encode(n)) == n
    ensures |Encode(n)| > 1 ==> Encode(n)[|Encode(n)| - 1] > 0
  {
    hide Worth;
    if n >= 128 {
      EncodeMeans(n / 128);
      assert Encode(n)[1..] == Encode(n / 128);
      if |Encode(n / 128)| == 1 {
        ShortEncode(n / 128);
      }
    } else {
      NothingIsWorthNothing();
    }
    WorthCons(Encode(n));
    assert n < 128 ==> Encode(n)[1..] == [];
  }

  lemma ShortEncode(n: nat)
    requires |Encode(n)| == 1
    ensures Encode(n) == [n]
  {
  }

  /** The examples of the unsigned-varint specification. */
  lemma Examples()
    ensures Encode(1) == [0x01] && Encode(127) == [0x7f] && Encode(128) == [0x80, 0x01]
    ensures Encode(255) == [0xff, 0x01] && Encode(300) == [0xac, 0x02] && Encode(16384) == [0x80, 0x80, 0x01]
  {
    assert Encode(128) == [0x80] + Encode(1) && Encode(16384) == [0x80] + Encode(128);
    assert Encode(255) == [0xff] + Encode(1) && Encode(300) == [0xac] + Encode(2);
  }
}
