/**
 Content identifiers and their self-delimiting binary form
 (multiformats CID specification, section "Decoding Algorithm").
 */
module Cids {
  import opened Bytes
  import Varint

  datatype RawCid =
    | V0(digest: Bytes)
    | V1(codec: nat, hashCode: nat, digest: Bytes)
  {
    /** The multihash function code: version 0 is always sha2-256. */
    function HashCode(): nat {
      if V0? then 0x12 else hashCode
    }
  }

  type Cid = c: RawCid | c.V0? ==> |c.digest| == 32 witness V1(0, 0, [])

  function V1Head(codec: nat, hashCode: nat, len: nat): (b: Bytes) {
    Varint.Encode(1) + (Varint.Encode(codec) + (Varint.Encode(hashCode) + Varint.Encode(len)))
  }

  /** cid_to_bytes */
  function Encode(c: Cid): (b: Bytes)
    ensures b != []
  {
    match c
    case V0(digest) => [0x12, 0x20] + digest
    case V1(codec, hashCode, digest) => V1Head(codec, hashCode, |digest|) + digest
  }

  predicate StartsV0(s: Bytes) {
    |s| >= 34 && s[0] == 0x12 && s[1] == 0x20
  }

  datatype Head = NoHead | Head(version: nat, codec: nat, hashCode: nat, len: nat, rest: Bytes)

  /** The four numbers that open a version 1 identifier, read off a stream one after the other. */
  function ReadHead(s: Bytes): (h: Head)
    ensures h.Head? ==> |h.rest| < |s|
  {
    match Varint.Decode(s)
    case Value(version, s1) => (
      match Varint.Decode(s1)
      case Value(codec, s2) => (
        match Varint.Decode(s2)
        case Value(hashCode, s3) => (
          match Varint.Decode(s3)
          case Value(len, s4) => Head(version, codec, hashCode, len, s4)
          case _ => NoHead)
        case _ => NoHead)
      case _ => NoHead)
    case _ => NoHead
  }

  lemma ReadHeadEncode(codec: nat, hashCode: nat, len: nat, rest: Bytes)
    ensures ReadHead(V1Head(codec, hashCode, len) + rest) == Head(1, codec, hashCode, len, rest)
  {
    hide ReadHead;
    ReadFourNumbers(1, codec, hashCode, len, rest);
  }

  /** parse_cid on bytes: the identifier whose canonical encoding is exactly the input, if there is one. */
  function Parse(b: Bytes): (r: Option<Cid>)
    ensures r.Some? ==> Encode(r.value) == b
  {
    if |b| == 34 && StartsV0(b) then
      var c: Cid := V0(b[2..]);
      Some(c)
    else match ReadHead(b)
      case NoHead => None
      case Head(version, codec, hashCode, len, rest) =>
        var c: Cid := V1(codec, hashCode, rest);
        if version == 1 && Encode(c) == b then Some(c) else None
  }

  lemma ParseEncode(c: Cid)
    ensures Parse(Encode(c)) == Some(c)
  {
    if c.V0? {
      assert Encode(c)[2..] == c.digest;
    } else {
      EncodeV1(c);
      ReadHeadEncode(c.codec, c.hashCode, |c.digest|, c.digest);
      V1HeadStarts(c.codec, c.hashCode, |c.digest|);
      hide ReadHead, Encode, V1Head;
    }
  }

  /**
   get_cid_len: how many leading bytes of a block section are its identifier.
   None is an exception; a multihash length past the end of the data is clamped,
   as a read from an in-memory stream is.
   */
  function CidLen(data: Bytes): (r: Option<nat>)
    ensures r.Some? ==> r.value <= |data|
  {
    if StartsV0(data) then Some(34)
    else match ReadHead(data)
      case NoHead => None
      case Head(_, _, _, len, rest) =>
        Some(|data| - |rest| + if len < |rest| then len else |rest|)
  }

  /**
   The length found in any data: 34 for a version 0 identifier, else that of four numbers and
   of as many bytes behind them as the fourth says and the data has.
   */
  lemma CidLenMeans(version: nat, codec: nat, hashCode: nat, len: nat, rest: Bytes)
    ensures
      var data := FourNumbers(version, codec, hashCode, len) + rest;
      CidLen(data) == Some(
        if |data| >= 34 && data[0] == 0x12 && data[1] == 0x20 then 34
        else if len < |rest| then |data| - |rest| + len else |data|)
  {
    ReadFourNumbers(version, codec, hashCode, len, rest);
    hide ReadHead, FourNumbers;
  }

  function FourNumbers(a: nat, b: nat, c: nat, d: nat): Bytes {
    Varint.Encode(a) + (Varint.Encode(b) + (Varint.Encode(c) + Varint.Encode(d)))
  }

  lemma Reassociate(a: Bytes, b: Bytes, c: Bytes, d: Bytes, rest: Bytes)
    ensures a + (b + (c + d)) + rest == a + (b + (c + (d + rest)))
  {
  }

  lemma ReadFourNumbers(version: nat, codec: nat, hashCode: nat, len: nat, rest: Bytes)
    ensures ReadHead(FourNumbers(version, codec, hashCode, len) + rest) == Head(version, codec, hashCode, len, rest)
  {
    hide Varint.Encode, Varint.Decode;
    var s3 := Varint.Encode(len) + rest;
    var s2 := Varint.Encode(hashCode) + s3;
    var s1 := Varint.Encode(codec) + s2;
    Reassociate(Varint.Encode(version), Varint.Encode(codec), Varint.Encode(hashCode), Varint.Encode(len), rest);
    Varint.DecodeEncode(version, s1);
    Varint.DecodeEncode(codec, s2);
    Varint.DecodeEncode(hashCode, s3);
    Varint.DecodeEncode(len, rest);
  }

  /** The layout of identifiers: a bare sha2-256 multihash, or version, codec and multihash. */
  lemma EncodeMeans(digest: Bytes, codec: nat, hashCode: nat)
    ensures |digest| == 32 ==> Encode(V0(digest)) == [0x12, 0x20] + digest
    ensures
      Encode(V1(codec, hashCode, digest))
      == [0x01] + Varint.Encode(codec) + Varint.Encode(hashCode) + Varint.Encode(|digest|) + digest
  {
    assert Varint.Encode(1) == [0x01];
    hide Varint.Encode;
    EncodeV1(V1(codec, hashCode, digest));
  }

  /** Bytes are taken for an identifier exactly when they are its encoding. */
  lemma ParseExactly(b: Bytes, c: Cid)
    ensures Parse(b) == Some(c) <==> b == Encode(c)
  {
    hide Encode, Parse;
    ParseEncode(c);
  }

  lemma V1HeadStarts(codec: nat, hashCode: nat, len: nat)
    ensures V1Head(codec, hashCode, len) != [] && V1Head(codec, hashCode, len)[0] == 1
  {
    assert Varint.Encode(1) == [1];
  }

  lemma CidLenFromHead(s: Bytes, head: Head)
    requires s != [] && s[0] == 1 && ReadHead(s) == head
    requires head.Head? && head.len <= |head.rest|
    ensures CidLen(s) == Some(|s| - |head.rest| + head.len)
  {
    hide ReadHead;
  }

  /** Whatever bytes follow an identifier, its length is found. */
  lemma CidLenEncode(c: Cid, data: Bytes)
    ensures CidLen(Encode(c) + data) == Some(|Encode(c)|)
  {
    var b := Encode(c);
    if c.V0? {
      assert b[0] == 0x12 && b[1] == 0x20 && |b| == 34;
      hide *;
      assert StartsV0(b + data);
    } else {
      V1Len(c, data);
    }
  }

  lemma V1Len(c: Cid, data: Bytes)
    requires c.V1?
    ensures CidLen(Encode(c) + data) == Some(|Encode(c)|)
  {
    hide *;
    var head := V1Head(c.codec, c.hashCode, |c.digest|);
    var rest := c.digest + data;
    var s := head + rest;
    EncodeV1(c);
    assert s == Encode(c) + data by {
      assert head + c.digest + data == s;
    }
    ReadHeadEncode(c.codec, c.hashCode, |c.digest|, rest);
    V1HeadStarts(c.codec, c.hashCode, |c.digest|);
    CidLenFromHead(s, Head(1, c.codec, c.hashCode, |c.digest|, rest));
  }

  lemma EncodeV1(c: Cid)
    requires c.V1?
    ensures Encode(c) == V1Head(c.codec, c.hashCode, |c.digest|) + c.digest
  {
  }
}
