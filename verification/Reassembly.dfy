/** Fetching a file by its root and putting it together again (get_file in peer/_content.py). */
module Reassembly {
  import opened Bytes
  import opened Cids

  /** A decoded dag-pb block; empty data is the same as none. */
  datatype FileNode = FileNode(directory: bool, links: seq<Cid>, data: Bytes)

  datatype Kind = RawBlock | PbBlock | OtherBlock

  /** Blocks, and how they are read. None is a block that does not decode. */
  datatype Source = Source(blocks: map<Cid, Bytes>, kindOf: Cid -> Kind, decode: Bytes -> Option<FileNode>)
  {
    function LinksOf(c: Cid): seq<Cid> {
      if c in blocks && kindOf(c).PbBlock? && decode(blocks[c]).Some? then decode(blocks[c]).value.links else []
    }

    /** Every link leads to a block of smaller rank. */
    ghost predicate Acyclic(rank: Cid -> nat) {
      forall c, d :: d in LinksOf(c) ==> rank(d) < rank(c)
    }
  }

  /** What a generator delivers: its chunks, and whether it ended without an exception. */
  datatype Stream = Stream(chunks: seq<Bytes>, ok: bool) {
    function Then(next: Stream): Stream {
      if ok then Stream(chunks + next.chunks, next.ok) else this
    }
  }

  function Join(chunks: seq<Bytes>): Bytes {
    if chunks == [] then [] else Join(chunks[..|chunks| - 1]) + chunks[|chunks| - 1]
  }

  lemma {:induction false} JoinAppends(a: seq<Bytes>, b: seq<Bytes>)
    ensures Join(a + b) == Join(a) + Join(b)
  {
    if b == [] {
      assert a + b == a;
    } else {
      var n := |b| - 1;
      JoinAppends(a, b[..n]);
      assert (a + b)[..|a| + n] == a + b[..n];
      assert Join(a + b) == Join(a + b[..n]) + b[n];
      assert Join(b) == Join(b[..n]) + b[n];
    }
  }

  lemma JoinOne(chunk: Bytes)
    ensures Join([chunk]) == chunk
  {
    assert Join([chunk][..0]) == [];
  }

  // ---------------------------------------------------------------------
  // The stream, block by block
  // ---------------------------------------------------------------------

  /** The stream of a file when every block is fetched just before it is needed. */
  ghost function StreamOf(f: Source, c: Cid, rank: Cid -> nat): Stream
    requires f.Acyclic(rank)
    decreases rank(c), |f.LinksOf(c)| + 1
  {
    if c !in f.blocks then Stream([], false)
    else match f.kindOf(c)
      case RawBlock => Stream([f.blocks[c]], true)
      case OtherBlock => Stream([], true)
      case PbBlock =>
        match f.decode(f.blocks[c])
        case None => Stream([], false)
        case Some(node) =>
          if node.directory then
            (if node.links == [] then Stream([], true) else StreamOf(f, node.links[0], rank))
          else if node.links == [] then Stream(if node.data == [] then [] else [node.data], true)
          else StreamFrom(f, c, 0, rank)
  }

  /** The streams of the links of c from the i-th on, until one fails. */
  ghost function StreamFrom(f: Source, c: Cid, i: nat, rank: Cid -> nat): Stream
    requires f.Acyclic(rank) && i <= |f.LinksOf(c)|
    decreases rank(c), |f.LinksOf(c)| - i
  {
    if i == |f.LinksOf(c)| then Stream([], true)
    else StreamOf(f, f.LinksOf(c)[i], rank).Then(StreamFrom(f, c, i + 1, rank))
  }

  // ---------------------------------------------------------------------
  // The file, as its leaves from left to right
  // ---------------------------------------------------------------------

  /** The data of the leaves below c in order; a block that is missing or does not decode holds none. */
  ghost function Content(f: Source, c: Cid, rank: Cid -> nat): Bytes
    requires f.Acyclic(rank)
    decreases rank(c), |f.LinksOf(c)| + 1
  {
    if c !in f.blocks then []
    else match f.kindOf(c)
      case RawBlock => f.blocks[c]
      case OtherBlock => []
      case PbBlock =>
        match f.decode(f.blocks[c])
        case None => []
        case Some(node) =>
          if node.directory then (if node.links == [] then [] else Content(f, node.links[0], rank))
          else if node.links == [] then node.data
          else ContentFrom(f, c, 0, rank)
  }

  ghost function ContentFrom(f: Source, c: Cid, i: nat, rank: Cid -> nat): Bytes
    requires f.Acyclic(rank) && i <= |f.LinksOf(c)|
    decreases rank(c), |f.LinksOf(c)| - i
  {
    if i == |f.LinksOf(c)| then [] else Content(f, f.LinksOf(c)[i], rank) + ContentFrom(f, c, i + 1, rank)
  }

  /** The contents of some blocks, one after the other. */
  ghost function Contents(f: Source, cs: seq<Cid>, rank: Cid -> nat): Bytes
    requires f.Acyclic(rank)
    decreases |cs|
  {
    if cs == [] then [] else Content(f, cs[0], rank) + Contents(f, cs[1..], rank)
  }

  lemma {:induction false} ContentFromIsContents(f: Source, c: Cid, i: nat, rank: Cid -> nat)
    requires f.Acyclic(rank) && i <= |f.LinksOf(c)|
    ensures ContentFrom(f, c, i, rank) == Contents(f, f.LinksOf(c)[i..], rank)
    decreases |f.LinksOf(c)| - i
  {
    hide Content, Source.LinksOf;
    if i < |f.LinksOf(c)| {
      ContentFromIsContents(f, c, i + 1, rank);
    }
  }

  /**
   The content of a file: a raw block's bytes, a leaf's data, the contents of all its links in
   order whatever data stands beside them, and of a directory that of its first link.
   */
  lemma ContentMeans(f: Source, c: Cid, rank: Cid -> nat)
    requires f.Acyclic(rank) && c in f.blocks
    ensures f.kindOf(c) == RawBlock ==> Content(f, c, rank) == f.blocks[c]
    ensures f.kindOf(c) == PbBlock && f.decode(f.blocks[c]).Some? ==>
      var node := f.decode(f.blocks[c]).value;
      Content(f, c, rank)
      == if node.directory then (if node.links == [] then [] else Content(f, node.links[0], rank))
         else if node.links == [] then node.data
         else Contents(f, node.links, rank)
  {
    if f.kindOf(c) == PbBlock && f.decode(f.blocks[c]).Some? {
      ContentFromIsContents(f, c, 0, rank);
      assert f.LinksOf(c)[0..] == f.decode(f.blocks[c]).value.links;
    }
  }

  /** Every block the file needs is there and decodes. */
  ghost predicate Readable(f: Source, c: Cid, rank: Cid -> nat)
    requires f.Acyclic(rank)
    decreases rank(c)
  {
    c in f.blocks && (f.kindOf(c).PbBlock? ==>
      && f.decode(f.blocks[c]).Some?
      && var node := f.decode(f.blocks[c]).value;
         if node.directory then node.links != [] ==> Readable(f, node.links[0], rank)
         else forall i :: 0 <= i < |node.links| ==> Readable(f, f.LinksOf(c)[i], rank))
  }

  /** A stream that ends well has delivered the whole file, and one that fails a part of it from the front. */
  ghost predicate Delivers(s: Stream, content: Bytes) {
    Join(s.chunks) <= content && (s.ok ==> Join(s.chunks) == content)
  }

  lemma DeliversThen(a: Stream, b: Stream, x: Bytes, y: Bytes)
    requires Delivers(a, x) && Delivers(b, y)
    ensures Delivers(a.Then(b), x + y)
  {
    hide Join;
    if a.ok {
      JoinAppends(a.chunks, b.chunks);
    }
  }

  /**
   The stream of a file is the concatenation of its leaves in order: it ends well exactly
   when every needed block is there and decodes, and a failing one stops after a prefix.
   */
  lemma {:induction false} StreamIsContent(f: Source, c: Cid, rank: Cid -> nat)
    requires f.Acyclic(rank)
    ensures Delivers(StreamOf(f, c, rank), Content(f, c, rank))
    ensures StreamOf(f, c, rank).ok <==> Readable(f, c, rank)
    decreases rank(c), |f.LinksOf(c)| + 1
  {
    if c in f.blocks {
      JoinOne(f.blocks[c]);
      if f.kindOf(c).PbBlock? && f.decode(f.blocks[c]).Some? {
        var node := f.decode(f.blocks[c]).value;
        JoinOne(node.data);
        if node.directory && node.links != [] {
          assert node.links[0] in f.LinksOf(c);
          StreamIsContent(f, node.links[0], rank);
        } else if node.links != [] {
          StreamFromIsContent(f, c, 0, rank);
        }
      }
    }
  }

  lemma {:induction false} StreamFromIsContent(f: Source, c: Cid, i: nat, rank: Cid -> nat)
    requires f.Acyclic(rank) && i <= |f.LinksOf(c)|
    ensures Delivers(StreamFrom(f, c, i, rank), ContentFrom(f, c, i, rank))
    ensures StreamFrom(f, c, i, rank).ok <==> forall j :: i <= j < |f.LinksOf(c)| ==> Readable(f, f.LinksOf(c)[j], rank)
    decreases rank(c), |f.LinksOf(c)| - i
  {
    if i < |f.LinksOf(c)| {
      var d := f.LinksOf(c)[i];
      assert d in f.LinksOf(c);
      StreamIsContent(f, d, rank);
      StreamFromIsContent(f, c, i + 1, rank);
      DeliversThen(StreamOf(f, d, rank), StreamFrom(f, c, i + 1, rank),
                   Content(f, d, rank), ContentFrom(f, c, i + 1, rank));
    }
  }

  // ---------------------------------------------------------------------
  // The fetching code
  // ---------------------------------------------------------------------

  datatype Delivery = Written(bytes: Bytes, ok: bool) | Streaming(stream: Stream) | Buffered(bytes: Bytes) | Raised

  type Peer = nat

  /** Blocks are content-addressed: wherever one is, it is the same block. */
  ghost predicate Agrees(some: map<Cid, Bytes>, all: map<Cid, Bytes>) {
    forall c :: c in some ==> c in all && some[c] == all[c]
  }

  /**
   Fetching over the exchange, which looks into the local store, then asks the peer that
   served the last block, then anyone. all is what the store and the peers have together.
   */
  class Fetcher {
    const peers: map<Peer, map<Cid, Bytes>>
    const kindOf: Cid -> Kind
    const decode: Bytes -> Option<FileNode>
    const batchFetch: bool
    ghost const all: map<Cid, Bytes>
    var local: map<Cid, Bytes>
    var lastGoodPeer: Option<Peer>

    ghost predicate Valid()
      reads this
    {
      && Agrees(local, all)
      && (forall p :: p in peers ==> Agrees(peers[p], all))
      && forall c :: c in all ==> c in local || exists p :: p in peers && c in peers[p]
    }

    ghost function Everything(): Source {
      Source(all, kindOf, decode)
    }

    ghost constructor (
      all: map<Cid, Bytes>, local: map<Cid, Bytes>, peers: map<Peer, map<Cid, Bytes>>,
      kindOf: Cid -> Kind, decode: Bytes -> Option<FileNode>, batchFetch: bool, lastGoodPeer: Option<Peer>)
      requires Agrees(local, all) && forall p :: p in peers ==> Agrees(peers[p], all)
      requires forall c :: c in all ==> c in local || exists p :: p in peers && c in peers[p]
      ensures Valid() && Everything() == Source(all, kindOf, decode)
    {
      this.all, this.local, this.peers := all, local, peers;
      this.kindOf, this.decode, this.batchFetch := kindOf, decode, batchFetch;
      this.lastGoodPeer := lastGoodPeer;
    }

    /** Who is asked for a block that is not there: the last good peer if it has it, else anyone who does. */
    method Ask(c: Cid) returns (from: Option<Peer>)
      ensures from.Some? ==> from.value in peers && c in peers[from.value]
      ensures from == None ==> forall p :: p in peers ==> c !in peers[p]
    {
      if lastGoodPeer.Some? && lastGoodPeer.value in peers && c in peers[lastGoodPeer.value] {
        return lastGoodPeer;
      }
      var having := set p | p in peers && c in peers[p];
      if having == {} {
        assert forall p :: p in peers && c in peers[p] ==> p in having;
        return None;
      }
      var p :| p in having;
      return Some(p);
    }

    /** fetch_block_with_timeout: whichever peer delivers is asked first next time, and the block may be kept. */
    method FetchBlock(c: Cid) returns (data: Option<Bytes>)
      requires Valid()
      modifies this
      ensures Valid()
      ensures data == if c in all then Some(all[c]) else None
    {
      if c in local {
        return Some(local[c]);
      }
      var from := Ask(c);
      if from == None {
        return None;
      }
      lastGoodPeer := from;
      data := Some(peers[from.value][c]);
      var kept: bool := *;
      if kept {
        local := local[c := data.value];
      }
    }

    /**
     get_blocks_batch: any of the blocks asked for may arrive before it ends or fails. A
     failure is swallowed, and the result is not looked at.
     */
    method Prefetch(cids: seq<Cid>)
      requires Valid()
      modifies this
      ensures Valid()
    {
      for i := 0 to |cids|
        invariant Valid()
      {
        var fails: bool := *;
        if fails {
          return;
        }
        var arrives: bool := *;
        if arrives {
          var _ := FetchBlock(cids[i]);
        }
      }
    }

    /** fetch_stream, with links fetched in batches of 32 when batching is on. */
    method FetchStream(c: Cid, ghost rank: Cid -> nat) returns (s: Stream)
      requires Valid() && Everything().Acyclic(rank)
      modifies this
      ensures Valid()
      ensures s == StreamOf(Everything(), c, rank)
      decreases rank(c), 1
    {
      var data := FetchBlock(c);
      if data == None {
        return Stream([], false);
      }
      match kindOf(c) {
        case RawBlock => return Stream([data.value], true);
        case OtherBlock => return Stream([], true);
        case PbBlock =>
          var decoded := decode(data.value);
          if decoded == None {
            return Stream([], false);
          }
          var node := decoded.value;
          if node.directory {
            if node.links == [] {
              return Stream([], true);
            }
            assert node.links[0] in Everything().LinksOf(c);
            s := FetchStream(node.links[0], rank);
            return;
          }
          if node.links == [] {
            return Stream(if node.data == [] then [] else [node.data], true);
          }
          s := FetchLinks(c, node.links, if batchFetch then 32 else 1, rank);
      }
    }

    /** The loop over batches and, inside it, over the links of one batch. */
    method FetchLinks(c: Cid, links: seq<Cid>, batchSize: nat, ghost rank: Cid -> nat) returns (s: Stream)
      requires Valid() && Everything().Acyclic(rank) && links == Everything().LinksOf(c) && batchSize > 0
      modifies this
      ensures Valid()
      ensures s == StreamFrom(Everything(), c, 0, rank)
      decreases rank(c), 0
    {
      hide StreamOf, StreamFrom, Source.LinksOf;
      ghost var whole := StreamFrom(Everything(), c, 0, rank);
      var chunks: seq<Bytes> := [];
      var i := 0;
      NothingBefore(whole);
      while i < |links|
        invariant Valid() && i <= |links|
        invariant whole == Stream(chunks, true).Then(StreamFrom(Everything(), c, i, rank))
      {
        var end := if i + batchSize < |links| then i + batchSize else |links|;
        if batchFetch && end - i > 1 {
          Prefetch(links[i..end]);
        }
        while i < end
          invariant Valid() && i <= end <= |links|
          invariant whole == Stream(chunks, true).Then(StreamFrom(Everything(), c, i, rank))
          decreases end - i
        {
          assert links[i] in links;
          var part := FetchStream(links[i], rank);
          NextLink(Everything(), c, i, rank);
          AppendPart(chunks, part, StreamFrom(Everything(), c, i + 1, rank));
          chunks := chunks + part.chunks;
          if !part.ok {
            return Stream(chunks, false);
          }
          i := i + 1;
        }
      }
      LastLink(Everything(), c, rank);
      assert chunks + [] == chunks;
      s := Stream(chunks, true);
    }

    /** The loop that writes the chunks to the file as they come. */
    method WriteAll(chunks: seq<Bytes>) returns (written: Bytes)
      ensures written == Join(chunks)
    {
      written := [];
      var i := 0;
      while i < |chunks|
        invariant i <= |chunks| && written == Join(chunks[..i])
      {
        assert chunks[..i + 1][..i] == chunks[..i];
        written := written + chunks[i];
        i := i + 1;
      }
      assert chunks[..i] == chunks;
    }

    /** get_file: to disk, as a stream, or buffered. */
    method GetFile(c: Cid, toDisk: bool, asStream: bool, ghost rank: Cid -> nat) returns (d: Delivery)
      requires Valid() && Everything().Acyclic(rank)
      modifies this
      ensures Valid()
      ensures
        var s := StreamOf(Everything(), c, rank);
        d == if toDisk then Written(Join(s.chunks), s.ok)
             else if asStream then Streaming(s)
             else if s.ok then Buffered(Join(s.chunks))
             else Raised
    {
      var s := FetchStream(c, rank);
      hide StreamOf, Join, Source.Acyclic;
      if toDisk {
        var written := WriteAll(s.chunks);
        return Written(written, s.ok);
      }
      if asStream {
        return Streaming(s);
      }
      d := if s.ok then Buffered(Join(s.chunks)) else Raised;
    }
  }

  lemma NextLink(f: Source, c: Cid, i: nat, rank: Cid -> nat)
    requires f.Acyclic(rank) && i < |f.LinksOf(c)|
    ensures StreamFrom(f, c, i, rank) == StreamOf(f, f.LinksOf(c)[i], rank).Then(StreamFrom(f, c, i + 1, rank))
  {
  }

  lemma LastLink(f: Source, c: Cid, rank: Cid -> nat)
    requires f.Acyclic(rank)
    ensures StreamFrom(f, c, |f.LinksOf(c)|, rank) == Stream([], true)
  {
  }

  lemma NothingBefore(s: Stream)
    ensures Stream([], true).Then(s) == s
  {
    assert [] + s.chunks == s.chunks;
  }

  lemma AppendPart(chunks: seq<Bytes>, part: Stream, rest: Stream)
    ensures
      Stream(chunks, true).Then(part.Then(rest))
      == if part.ok then Stream(chunks + part.chunks, true).Then(rest) else Stream(chunks + part.chunks, false)
  {
    assert chunks + (part.chunks + rest.chunks) == chunks + part.chunks + rest.chunks;
  }
}
