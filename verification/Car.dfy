/** Writing and reading content archives in the CARv1 format (car.py). */
module Car {
  import opened Bytes
  import opened Cids
  import opened Ipld
  import opened Graphs
  import opened Dag
  import opened Content
  import Varint

  // ---------------------------------------------------------------------
  // The bytes of an archive
  // ---------------------------------------------------------------------

  /** One block: its length, its identifier, its data. */
  function Section(c: Cid, data: Bytes): (b: Bytes)
    ensures |b| == |Varint.Encode(|Encode(c)| + |data|)| + |Encode(c)| + |data|
  {
    Varint.Encode(|Encode(c)| + |data|) + (Encode(c) + data)
  }

  function Sections(all: Store, cs: seq<Cid>): Bytes
    requires forall c :: c in cs ==> c in all
  {
    if cs == [] then [] else Section(cs[0], all[cs[0]]) + Sections(all, cs[1..])
  }

  function HeaderOf(root: Cid): Header {
    Header(1, [Tag42([0] + Encode(root))])
  }

  function HeaderPart(w: World, root: Cid): Bytes {
    var header := w.dumpHeader(HeaderOf(root));
    Varint.Encode(|header|) + header
  }

  ghost predicate Complete(w: World, all: Store, root: Cid) {
    forall c :: c in Walk(w, all, root) ==> c in all
  }

  lemma CompleteInStore(w: World, all: Store, root: Cid)
    requires Complete(w, all, root)
    ensures forall c :: c in Walk(w, all, root) ==> c in all
  {
  }

  /** The archive of a graph none of whose reachable blocks is missing. */
  ghost function Archive(w: World, all: Store, root: Cid): Bytes
    requires Complete(w, all, root)
  {
    HeaderPart(w, root) + Sections(all, Walk(w, all, root))
  }

  lemma {:induction false} SectionsSnoc(all: Store, cs: seq<Cid>, c: Cid)
    requires (forall d :: d in cs ==> d in all) && c in all
    ensures Sections(all, cs + [c]) == Sections(all, cs) + Section(c, all[c])
  {
    if cs == [] {
      assert [] + [c] == [c];
      assert [c][1..] == [];
    } else {
      assert (cs + [c])[1..] == cs[1..] + [c];
      SectionsSnoc(all, cs[1..], c);
    }
  }

  /** What export_car has written once the blocks named by done are out. */
  ghost predicate Written(w: World, all: Store, root: Cid, done: seq<Cid>, f: Bytes) {
    && (forall c :: c in done ==> c in all)
    && f == HeaderPart(w, root) + Sections(all, done)
  }

  lemma WritingStarts(w: World, all: Store, root: Cid)
    ensures Written(w, all, root, [], HeaderPart(w, root))
  {
    assert HeaderPart(w, root) + [] == HeaderPart(w, root);
  }

  lemma WritingGoesOn(w: World, all: Store, root: Cid, done: seq<Cid>, f: Bytes, c: Cid)
    requires Written(w, all, root, done, f) && c in all
    ensures Written(w, all, root, done + [c], f + Section(c, all[c]))
  {
    hide HeaderPart, Section, Sections;
    SectionsSnoc(all, done, c);
    AppendAppend(HeaderPart(w, root), Sections(all, done), Section(c, all[c]));
  }

  lemma WritingEnds(w: World, all: Store, root: Cid, f: Bytes)
    requires Written(w, all, root, Walk(w, all, root), f)
    ensures Complete(w, all, root) && f == Archive(w, all, root)
  {
    hide Walk, HeaderPart, Sections;
  }

  lemma MissingFromWalk(w: World, all: Store, root: Cid, done: seq<Cid>, c: Cid)
    requires done + [c] <= Walk(w, all, root) && c !in all
    ensures !Complete(w, all, root)
  {
    hide Walk;
    assert (done + [c])[|done|] == Walk(w, all, root)[|done|];
  }

  /**
   export_car: the bytes that replace the output file, or None when a block is
   found neither in the store nor by the exchange and the file is left alone.
   */
  method ExportCar(w: World, store: Store, remote: Store, root: Cid) returns (r: Option<Bytes>)
    ensures r.Some? <==> Complete(w, remote + store, root)
    ensures r.Some? ==> r.value == Archive(w, remote + store, root)
    ensures r.Some? <==> forall c :: Leads(w, remote + store, root, c) ==> c in store || c in remote
    ensures r.Some? ==>
      var header := w.dumpHeader(Header(1, [Tag42([0] + Encode(root))]));
      && (forall c :: c in Walk(w, remote + store, root) ==> c in remote + store)
      && r.value
         == Varint.Encode(|header|) + header + Laid(BlocksOf(remote + store, Walk(w, remote + store, root)))
  {
    hide *;
    ghost var all := remote + store;
    CompleteMeans(w, all, root);
    if Complete(w, all, root) {
      ArchiveIsLaid(w, all, root);
      CompleteInStore(w, all, root);
    }
    ghost var g := LinkGraph(w, all);
    ghost var walk := Walk(w, all, root);
    ghost var done: seq<Cid> := [];
    WalkStartsAt(w, all, root);
    WritingStarts(w, all, root);
    var f := HeaderPart(w, root);
    var queue := [root];
    var visited: set<Cid> := {};
    while queue != []
      invariant Walking(g, walk, done, queue, visited)
      invariant Written(w, all, root, done, f)
      decreases Measure(g, queue, visited), |queue|
    {
      var curr := queue[0];
      if curr in visited {
        SkipTurn(g, walk, done, queue, visited);
        queue := queue[1..];
        continue;
      }
      TakeTurn(g, walk, done, queue, visited);
      queue := queue[1..];
      visited := visited + {curr};
      if curr !in store && curr !in remote {
        MissingFromWalk(w, all, root, done, curr);
        return None;
      }
      var data := if curr in store then store[curr] else remote[curr];
      WritingGoesOn(w, all, root, done, f, curr);
      f := f + Section(curr, data);
      done := done + [curr];
      var links := FollowLinks(w, curr, data, false);
      SuccOfPresent(w, all, curr);
      queue := queue + links.value;
    }
    WalkEnds(g, walk, done, visited);
    WritingEnds(w, all, root, f);
    r := Some(f);
  }

  // ---------------------------------------------------------------------
  // Reading
  // ---------------------------------------------------------------------

  /** multihash.digest over the data agrees with the identifier. */
  predicate Verified(w: World, c: Cid, data: Bytes) {
    w.hash(c.HashCode(), data, |c.digest|) == Some(c.digest)
  }

  /** A section without its length, split and checked; None is any of the exceptions it can raise. */
  function ReadBlock(w: World, full: Bytes): (r: Option<(Cid, Bytes)>)
    ensures r.Some? ==> Verified(w, r.value.0, r.value.1)
  {
    match CidLen(full)
    case None => None
    case Some(k) => (
      match Parse(full[..k])
      case None => None
      case Some(c) => if Verified(w, c, full[k..]) then Some((c, full[k..])) else None)
  }

  /** The loop that reads blocks: the store it leaves, and whether it ended without an exception. */
  function ReadSections(w: World, s: Bytes, store: Store): (Store, bool)
    decreases |s|
  {
    match Varint.Decode(s)
    case AtEnd => (store, true)
    case Truncated => (store, false)
    case Value(n, rest) =>
      if |rest| < n then (store, false)
      else if n == 0 then (store, true)
      else match ReadBlock(w, rest[..n])
        case None => (store, false)
        case Some((c, data)) => ReadSections(w, rest[n..], store[c := data])
  }

  function RootCids(roots: seq<Root>): Option<seq<Cid>> {
    if roots == [] then Some([])
    else match roots[0]
      case OtherRoot => RootCids(roots[1..])
      case Tag42(value) =>
        match Parse(if value == [] then [] else value[1..])
        case None => None
        case Some(c) =>
          match RootCids(roots[1..])
          case None => None
          case Some(rest) => Some([c] + rest)
  }

  function HeaderRoots(w: World, header: Bytes): Option<seq<Cid>> {
    match w.loadHeader(header)
    case None => None
    case Some(Header(version, roots)) => if version != 1 then None else RootCids(roots)
  }

  datatype Result =
    | Imported(roots: seq<string>)
    | CarParseError
    | EofEscapes  // the EOFError of a header length cut short, which nothing converts

  datatype Outcome = Outcome(store: Store, result: Result)

  function Shown(w: World, cs: seq<Cid>): seq<string> {
    seq(|cs|, i requires 0 <= i < |cs| => w.show(cs[i]))
  }

  /** The check after the last block: every root is there and, in strict mode, every walk completes. */
  ghost predicate RootsHold(w: World, store: Store, roots: seq<Cid>, strict: bool) {
    forall c :: c in roots ==> c in store && (strict ==> AllIntact(w, store, Walk(w, store, c)))
  }

  ghost function Import(w: World, s: Bytes, store: Store, strict: bool): Outcome {
    match Varint.Decode(s)
    case AtEnd => Outcome(store, Imported([]))
    case Truncated => Outcome(store, EofEscapes)
    case Value(n, rest) =>
      if |rest| < n then Outcome(store, CarParseError)
      else match HeaderRoots(w, rest[..n])
        case None => Outcome(store, CarParseError)
        case Some(roots) =>
          var (store', ok) := ReadSections(w, rest[n..], store);
          var held := ok && RootsHold(w, store', roots, strict);
          Outcome(store', if held then Imported(Shown(w, roots)) else CarParseError)
  }

  lemma Regroup3(a: Bytes, b: Bytes, c: Bytes)
    ensures a + (b + c) == a + b + c
  {
  }

  lemma TakeDrop(a: Bytes, b: Bytes)
    ensures (a + b)[..|a|] == a && (a + b)[|a|..] == b
  {
  }

  /** An open file. A read may return fewer bytes than asked for, but none only at the end. */
  class File {
    const bytes: Bytes
    var pos: nat

    constructor (bytes: Bytes)
      ensures this.bytes == bytes && Valid() && Rest() == bytes
    {
      this.bytes := bytes;
      pos := 0;
    }

    predicate Valid()
      reads this
    {
      pos <= |bytes|
    }

    function Rest(): Bytes
      reads this
      requires Valid()
    {
      bytes[pos..]
    }

    method Read(n: nat) returns (chunk: Bytes)
      requires Valid()
      modifies this
      ensures Valid() && old(Rest()) == chunk + Rest()
      ensures |chunk| <= n && (chunk == [] ==> n == 0 || Rest() == [])
    {
      var k: nat :| k <= n && k <= |bytes| - pos && (k == 0 ==> n == 0 || pos == |bytes|);
      chunk := bytes[pos..pos + k];
      pos := pos + k;
    }

    /** _read_exactly; None is EOFError. */
    method ReadExactly(n: nat) returns (data: Option<Bytes>)
      requires Valid()
      modifies this
      ensures Valid()
      ensures if |old(Rest())| < n then data == None
              else data == Some(old(Rest())[..n]) && Rest() == old(Rest())[n..]
    {
      hide *;
      ghost var all := Rest();
      var got: Bytes := [];
      assert all == [] + Rest();
      while |got| < n
        invariant Valid() && |got| <= n && all == got + Rest()
        decreases n - |got|
      {
        ghost var before := Rest();
        var chunk := Read(n - |got|);
        if chunk == [] {
          return None;
        }
        Regroup3(got, chunk, Rest());
        got := got + chunk;
      }
      TakeDrop(got, Rest());
      data := Some(got);
    }

    /** _read_varint; the shift is kept as the number of seven-bit groups read. */
    method ReadVarint() returns (r: Varint.Reading)
      requires Valid()
      modifies this
      ensures Valid()
      ensures r == Varint.Decode(old(Rest()))
      ensures r.Value? ==> r.rest == Rest()
    {
      hide *;
      var groups: nat, result: nat := 0, 0;
      Varint.ResumeStart(Rest());
      Varint.ScaleOne();
      while true
        invariant Valid()
        invariant Varint.Decode(old(Rest())) == Varint.Resume(Varint.Decode(Rest()), result, groups)
        invariant result < Varint.Scale(groups)
        decreases |Rest()|
      {
        ghost var before := Rest();
        var chunk := Read(1);
        if chunk == [] {
          Varint.ResumeEmpty(result, groups);
          return if groups == 0 then Varint.AtEnd else Varint.Truncated;
        }
        var val := chunk[0];
        assert before[0] == val && before[1..] == Rest();
        var bits: nat := val % 128;
        Varint.GroupOrAdds(result, bits, groups);
        if val < 128 {
          Varint.ResumeLast(before, result, groups);
          return Varint.Value(Varint.Or(result, Varint.Shifted(bits, groups)), Rest());
        }
        Varint.ResumeMore(before, bits, result, groups);
        result := Varint.Or(result, Varint.Shifted(bits, groups));
        groups := groups + 1;
      }
    }
  }

  /** The loop of import_car over the blocks; false is an exception. */
  method ImportBlocks(w: World, f: File, peer: Peer) returns (ok: bool)
    requires f.Valid()
    modifies f, peer`blocks
    ensures (peer.blocks, ok) == ReadSections(w, old(f.Rest()), old(peer.blocks))
  {
    while true
      invariant f.Valid()
      invariant ReadSections(w, f.Rest(), peer.blocks) == ReadSections(w, old(f.Rest()), old(peer.blocks))
      decreases |f.Rest()|
    {
      var blockLen := f.ReadVarint();
      if blockLen == Varint.AtEnd {
        return true;
      }
      if blockLen == Varint.Truncated {
        return false;
      }
      var full := f.ReadExactly(blockLen.n);
      if full == None {
        return false;
      }
      if full.value == [] {
        return true;
      }
      var block := ReadBlock(w, full.value);
      if block == None {
        return false;
      }
      var (c, data) := block.value;
      peer.blocks := peer.blocks[c := data];
    }
  }

  lemma StrictWalkIsIntact(w: World, store: Store, root: Cid)
    ensures NoneRaises(w, store, true, Never, Walk(w, store, root)) <==> AllIntact(w, store, Walk(w, store, root))
  {
    hide Walk, Intact;
    forall c
      ensures Raises(w, store, true, Never, c) <==> !Intact(w, store, c)
    {
    }
  }

  /** The loop of import_car over the roots; false is a CarParseError. */
  method CheckRoots(w: World, peer: Peer, roots: seq<Cid>, strict: bool) returns (ok: bool)
    ensures ok <==> RootsHold(w, peer.blocks, roots, strict)
    ensures ok <==> forall c :: c in roots ==>
      c in peer.blocks && (strict ==> forall d :: Leads(w, peer.blocks, c, d) ==> IsWhole(w, peer.blocks, d))
  {
    RootsHoldMeans(w, peer.blocks, roots, strict);
    hide *;
    RootsHoldSoFar(w, peer.blocks, roots, strict);
    var i := 0;
    while i < |roots|
      invariant i <= |roots|
      invariant forall j :: 0 <= j < i ==> RootHolds(w, peer.blocks, roots[j], strict)
    {
      RootHoldsMeans(w, peer.blocks, roots[i], strict);
      if roots[i] !in peer.blocks {
        return false;
      }
      if strict {
        var _, finished := WalkDag(w, peer.blocks, roots[i], true, true, Never);
        StrictWalkIsIntact(w, peer.blocks, roots[i]);
        if !finished {
          return false;
        }
      }
      i := i + 1;
    }
    ok := true;
  }

  ghost predicate RootHolds(w: World, store: Store, c: Cid, strict: bool) {
    c in store && (strict ==> AllIntact(w, store, Walk(w, store, c)))
  }

  lemma RootHoldsMeans(w: World, store: Store, c: Cid, strict: bool)
    ensures RootHolds(w, store, c, strict) <==> c in store && (strict ==> AllIntact(w, store, Walk(w, store, c)))
  {
  }

  lemma RootsHoldSoFar(w: World, store: Store, roots: seq<Cid>, strict: bool)
    ensures RootsHold(w, store, roots, strict) <==>
      forall j :: 0 <= j < |roots| ==> RootHolds(w, store, roots[j], strict)
  {
    hide Walk, AllIntact;
    assert forall c :: c in roots ==> exists j :: 0 <= j < |roots| && roots[j] == c;
    assert forall j :: 0 <= j < |roots| ==> roots[j] in roots;
  }

  /** import_car */
  method ImportCar(w: World, f: File, peer: Peer, strict: bool) returns (r: Result)
    requires f.Valid()
    modifies f, peer`blocks
    ensures Outcome(peer.blocks, r) == Import(w, old(f.Rest()), old(peer.blocks), strict)
    ensures forall c :: c in peer.blocks && !(c in old(peer.blocks) && old(peer.blocks)[c] == peer.blocks[c]) ==>
      w.hash(if c.V0? then 0x12 else c.hashCode, peer.blocks[c], |c.digest|) == Some(c.digest)
  {
    OnlyVerifiedBlocksStored(w, f.Rest(), peer.blocks, strict);
    var headerLen := f.ReadVarint();
    if headerLen == Varint.AtEnd {
      return Imported([]);
    }
    if headerLen == Varint.Truncated {
      return EofEscapes;
    }
    var header := f.ReadExactly(headerLen.n);
    if header == None {
      return CarParseError;
    }
    var roots := HeaderRoots(w, header.value);
    if roots == None {
      return CarParseError;
    }
    var ok := ImportBlocks(w, f, peer);
    if !ok {
      return CarParseError;
    }
    ok := CheckRoots(w, peer, roots.value, strict);
    r := if ok then Imported(Shown(w, roots.value)) else CarParseError;
  }

  // ---------------------------------------------------------------------
  // Only verified blocks are stored
  // ---------------------------------------------------------------------

  lemma {:induction false} SectionsStoreVerified(w: World, s: Bytes, store: Store)
    ensures
      var after := ReadSections(w, s, store).0;
      && store.Keys <= after.Keys
      && forall c :: c in after ==> (c in store && after[c] == store[c]) || Verified(w, c, after[c])
    decreases |s|
  {
    match Varint.Decode(s)
    case AtEnd =>
    case Truncated =>
    case Value(n, rest) =>
      if 0 < n <= |rest| {
        match ReadBlock(w, rest[..n])
        case None =>
        case Some((c, data)) => SectionsStoreVerified(w, rest[n..], store[c := data]);
      }
  }

  /** Whatever is read, and whether or not the import succeeds, a block that is new or changed matches its hash. */
  lemma OnlyVerifiedBlocksStored(w: World, s: Bytes, store: Store, strict: bool)
    ensures
      var after := Import(w, s, store, strict).store;
      && store.Keys <= after.Keys
      && forall c :: c in after ==>
           || (c in store && after[c] == store[c])
           || w.hash(if c.V0? then 0x12 else c.hashCode, after[c], |c.digest|) == Some(c.digest)
  {
    var after := Import(w, s, store, strict).store;
    hide ReadSections, HeaderRoots, RootsHold, Verified;
    match Varint.Decode(s) {
      case AtEnd =>
      case Truncated =>
      case Value(n, rest) =>
        if n <= |rest| {
          SectionsStoreVerified(w, rest[n..], store);
        }
    }
    hide Import;
    forall c | c in after && !(c in store && after[c] == store[c])
      ensures w.hash(if c.V0? then 0x12 else c.hashCode, after[c], |c.digest|) == Some(c.digest)
    {
      VerifiedMeans(w, c, after[c]);
    }
  }

  lemma VerifiedMeans(w: World, c: Cid, data: Bytes)
    ensures Verified(w, c, data) <==> w.hash(if c.V0? then 0x12 else c.hashCode, data, |c.digest|) == Some(c.digest)
  {
  }

  // ---------------------------------------------------------------------
  // What is read, section by section
  // ---------------------------------------------------------------------

  /** The bytes are an identifier and behind it data whose hash it carries. */
  ghost predicate IsBlock(w: World, body: Bytes, c: Cid, data: Bytes) {
    && body == Encode(c) + data
    && w.hash(if c.V0? then 0x12 else c.hashCode, data, |c.digest|) == Some(c.digest)
  }

  /** A section is taken for the one block it is, and refused when it is none or its hash fails or differs. */
  lemma BlockReadExactly(w: World, body: Bytes, c: Cid, data: Bytes)
    ensures ReadBlock(w, body) == Some((c, data)) <==> IsBlock(w, body, c, data)
  {
    VerifiedMeans(w, c, data);
    hide Verified, CidLen, Parse, Encode;
    if ReadBlock(w, body) == Some((c, data)) {
      var k := CidLen(body).value;
      assert body == body[..k] + body[k..];
    }
    if IsBlock(w, body, c, data) {
      ReadBlockBack(w, c, data);
    }
  }

  type Blocks = seq<(Cid, Bytes)>

  /** Sections laid one behind the other: each its length, its identifier and its data. */
  function Laid(blocks: Blocks): Bytes {
    if blocks == [] then []
    else
      var (c, data) := blocks[0];
      Varint.Encode(|Encode(c)| + |data|) + (Encode(c) + data) + Laid(blocks[1..])
  }

  /** The store after putting blocks one after the other. */
  function Stored(store: Store, blocks: Blocks): Store
    decreases |blocks|
  {
    if blocks == [] then store else Stored(store[blocks[0].0 := blocks[0].1], blocks[1..])
  }

  ghost predicate AllGood(w: World, blocks: Blocks) {
    forall b :: b in blocks ==> IsBlock(w, Encode(b.0) + b.1, b.0, b.1)
  }

  lemma {:induction false} GoodSectionsAreStored(w: World, blocks: Blocks, rest: Bytes, store: Store)
    requires AllGood(w, blocks)
    ensures ReadSections(w, Laid(blocks) + rest, store) == ReadSections(w, rest, Stored(store, blocks))
    decreases |blocks|
  {
    hide ReadSections, Encode, Varint.Encode;
    if blocks == [] {
      assert [] + rest == rest;
    } else {
      var (c, data) := blocks[0];
      var first, later := Section(c, data), Laid(blocks[1..]);
      assert blocks[0] in blocks;
      VerifiedMeans(w, c, data);
      ReadSectionBack(w, c, data, later + rest, store);
      assert Laid(blocks) + rest == first + (later + rest);
      GoodSectionsAreStored(w, blocks[1..], rest, store[c := data]);
    }
  }

  /** Reading ends well at the end of the file and at an empty section, and not in the middle of a section. */
  lemma ReadingEnds(w: World, n: nat, rest: Bytes, store: Store)
    ensures ReadSections(w, [], store) == (store, true)
    ensures ReadSections(w, [0] + rest, store) == (store, true)
    ensures |rest| < n ==> ReadSections(w, Varint.Encode(n) + rest, store) == (store, false)
  {
    Varint.DecodeEncode(n, rest);
    Varint.DecodeEncode(0, rest);
    assert Varint.Encode(0) == [0];
    hide Varint.Encode, ReadBlock;
  }

  /** A section that is no block, or whose hash fails or differs, is an error that stores nothing. */
  lemma BadSectionFails(w: World, body: Bytes, rest: Bytes, store: Store)
    requires body != [] && forall c, data :: !IsBlock(w, body, c, data)
    ensures ReadSections(w, Varint.Encode(|body|) + body + rest, store) == (store, false)
  {
    hide Varint.Encode;
    assert Varint.Encode(|body|) + body + rest == Varint.Encode(|body|) + (body + rest);
    Varint.DecodeEncode(|body|, body + rest);
    assert (body + rest)[..|body|] == body;
    if ReadBlock(w, body).Some? {
      var (c, data) := ReadBlock(w, body).value;
      BlockReadExactly(w, body, c, data);
      assert false;
    }
  }

  /** The first bad section ends an import with a CarParseError, and the store keeps the good ones before it. */
  lemma ImportStopsAtBadSection(
    w: World, header: Bytes, blocks: Blocks, body: Bytes, rest: Bytes, store: Store, strict: bool)
    requires HeaderRoots(w, header).Some? && AllGood(w, blocks)
    requires body != [] && forall c, data :: !IsBlock(w, body, c, data)
    ensures
      var bad := Varint.Encode(|body|) + body + rest;
      Import(w, Varint.Encode(|header|) + (header + (Laid(blocks) + bad)), store, strict)
      == Outcome(Stored(store, blocks), CarParseError)
  {
    hide *;
    var bad := Varint.Encode(|body|) + body + rest;
    var sections := Laid(blocks) + bad;
    GoodSectionsAreStored(w, blocks, bad, store);
    BadSectionFails(w, body, rest, Stored(store, blocks));
    FailedReadIsParseError(w, header, sections, store, strict);
  }

  lemma FailedReadIsParseError(w: World, header: Bytes, sections: Bytes, store: Store, strict: bool)
    requires HeaderRoots(w, header).Some? && !ReadSections(w, sections, store).1
    ensures
      Import(w, Varint.Encode(|header|) + (header + sections), store, strict)
      == Outcome(ReadSections(w, sections, store).0, CarParseError)
  {
    Varint.DecodeEncode(|header|, header + sections);
    assert (header + sections)[..|header|] == header && (header + sections)[|header|..] == sections;
    hide ReadSections, RootsHold, HeaderRoots, Varint.Encode, Varint.Decode;
  }

  // ---------------------------------------------------------------------
  // The header and the roots
  // ---------------------------------------------------------------------

  /** The identifiers of two lists of roots, or None when either has one that does not parse. */
  function Both(a: Option<seq<Cid>>, b: Option<seq<Cid>>): Option<seq<Cid>> {
    if a.Some? && b.Some? then Some(a.value + b.value) else None
  }

  function RootCid(root: Root): Option<seq<Cid>> {
    match root
    case OtherRoot => Some([])
    case Tag42(value) =>
      match Parse(if value == [] then [] else value[1..])
      case None => None
      case Some(c) => Some([c])
  }

  lemma RootCidsCons(roots: seq<Root>)
    requires roots != []
    ensures RootCids(roots) == Both(RootCid(roots[0]), RootCids(roots[1..]))
  {
    hide Parse;
    var later := RootCids(roots[1..]);
    assert later.Some? ==> [] + later.value == later.value;
  }

  lemma BothNested(a: Option<seq<Cid>>, b: Option<seq<Cid>>, c: Option<seq<Cid>>)
    ensures Both(a, Both(b, c)) == Both(Both(a, b), c)
    ensures Both(Some([]), c) == c
  {
    if a.Some? && b.Some? && c.Some? {
      assert a.value + (b.value + c.value) == a.value + b.value + c.value;
    }
    assert c.Some? ==> [] + c.value == c.value;
  }

  lemma {:induction false} RootCidsAppend(a: seq<Root>, b: seq<Root>)
    ensures RootCids(a + b) == Both(RootCids(a), RootCids(b))
  {
    if a == [] {
      assert a + b == b;
      BothNested(Some([]), Some([]), RootCids(b));
    } else {
      RootCidsCons(a);
      RootCidsCons(a + b);
      hide RootCids, RootCid, Both;
      assert (a + b)[1..] == a[1..] + b && (a + b)[0] == a[0];
      RootCidsAppend(a[1..], b);
      BothNested(RootCid(a[0]), RootCids(a[1..]), RootCids(b));
    }
  }

  /**
   The roots of a header are read in order: CBOR tag 42 over a byte and an identifier is a root,
   over anything else it is an error, and what has no such tag is passed over.
   */
  lemma RootsInOrder(roots: seq<Root>, value: Bytes, c: Cid)
    ensures RootCids([]) == Some([])
    ensures RootCids(roots + [OtherRoot]) == RootCids(roots)
    ensures value != [] && value[1..] == Encode(c) ==>
      RootCids(roots + [Tag42(value)])
      == if RootCids(roots).Some? then Some(RootCids(roots).value + [c]) else None
    ensures (forall d: Cid :: value == [] || value[1..] != Encode(d)) ==> RootCids(roots + [Tag42(value)]) == None
  {
    RootCidsAppend(roots, [OtherRoot]);
    RootCidsAppend(roots, [Tag42(value)]);
    assert RootCids([OtherRoot]) == Some([]) by { assert [OtherRoot][1..] == []; }
    assert RootCids(roots).Some? ==> RootCids(roots).value + [] == RootCids(roots).value;
    if value != [] && value[1..] == Encode(c) {
      ParseEncode(c);
      OneRoot(value, c);
    } else if forall d: Cid :: value == [] || value[1..] != Encode(d) {
      NoRoot(value);
    }
  }

  lemma NoRoot(value: Bytes)
    requires forall d: Cid :: value == [] || value[1..] != Encode(d)
    ensures RootCids([Tag42(value)]) == None
  {
    var named := if value == [] then [] else value[1..];
    var parsed := Parse(named);
    hide Parse, Encode;
    if parsed.Some? {
      assert false;
    }
  }

  /** A header counts when it loads, is of version 1 and has roots that parse. */
  lemma HeaderRootsMean(w: World, header: Bytes, cs: seq<Cid>)
    ensures HeaderRoots(w, header) == Some(cs) <==>
      exists roots :: w.loadHeader(header) == Some(Header(1, roots)) && RootCids(roots) == Some(cs)
  {
    hide RootCids;
  }

  /** The roots hold when each is there and, in strict mode, leads to whole blocks only. */
  lemma RootsHoldMeans(w: World, store: Store, roots: seq<Cid>, strict: bool)
    ensures RootsHold(w, store, roots, strict) <==>
      forall c :: c in roots ==> c in store && (strict ==> forall d :: Leads(w, store, c, d) ==> IsWhole(w, store, d))
  {
    hide Walk, Intact, IsWhole, Leads;
    forall c, d
      ensures d in Walk(w, store, c) <==> Leads(w, store, c, d)
      ensures Intact(w, store, d) <==> IsWhole(w, store, d)
    {
      WalkLeads(w, store, c, d);
      IntactIsWhole(w, store, d);
    }
  }

  /** When an import succeeds, and what it returns. */
  lemma ImportSucceedsExactly(w: World, header: Bytes, rest: Bytes, store: Store, strict: bool)
    ensures
      var outcome := Import(w, Varint.Encode(|header|) + (header + rest), store, strict);
      var (after, ok) := ReadSections(w, rest, store);
      && (outcome.result.Imported? <==>
            exists cs :: HeaderRoots(w, header) == Some(cs) && ok
              && forall c :: c in cs ==>
                   c in after && (strict ==> forall d :: Leads(w, after, c, d) ==> IsWhole(w, after, d)))
      && (outcome.result.Imported? ==>
            && HeaderRoots(w, header).Some? && |outcome.result.roots| == |HeaderRoots(w, header).value|
            && forall i :: 0 <= i < |outcome.result.roots| ==>
                 outcome.result.roots[i] == w.show(HeaderRoots(w, header).value[i]))
      && (!outcome.result.Imported? ==> outcome.result == CarParseError)
  {
    Varint.DecodeEncode(|header|, header + rest);
    assert (header + rest)[..|header|] == header && (header + rest)[|header|..] == rest;
    hide ReadSections, HeaderRoots, RootsHold, Leads, IsWhole, Varint.Encode, Varint.Decode;
    if HeaderRoots(w, header).Some? {
      var after := ReadSections(w, rest, store).0;
      RootsHoldMeans(w, after, HeaderRoots(w, header).value, strict);
    }
  }

  /** The bytes of an archive, spelled out. */
  function BlocksOf(all: Store, cs: seq<Cid>): Blocks
    requires forall c :: c in cs ==> c in all
  {
    seq(|cs|, i requires 0 <= i < |cs| => (cs[i], all[cs[i]]))
  }

  lemma {:induction false} SectionsAreLaid(all: Store, cs: seq<Cid>)
    requires forall c :: c in cs ==> c in all
    ensures Sections(all, cs) == Laid(BlocksOf(all, cs))
  {
    hide Varint.Encode, Encode;
    if cs != [] {
      SectionsAreLaid(all, cs[1..]);
      assert BlocksOf(all, cs)[1..] == BlocksOf(all, cs[1..]);
    }
  }

  lemma ArchiveIsLaid(w: World, all: Store, root: Cid)
    requires Complete(w, all, root)
    ensures
      var header := w.dumpHeader(Header(1, [Tag42([0] + Encode(root))]));
      Archive(w, all, root) == Varint.Encode(|header|) + header + Laid(BlocksOf(all, Walk(w, all, root)))
  {
    hide Walk, Sections, Laid;
    SectionsAreLaid(all, Walk(w, all, root));
  }

  lemma CompleteMeans(w: World, all: Store, root: Cid)
    ensures Complete(w, all, root) <==> forall c :: Leads(w, all, root, c) ==> c in all
  {
    hide Walk, Leads;
    forall c
      ensures c in Walk(w, all, root) <==> Leads(w, all, root, c)
    {
      WalkLeads(w, all, root, c);
    }
  }

  /** The bare EOFError escapes on exactly the bytes that end inside the header's length. */
  lemma EofEscapesExactly(w: World, s: Bytes, store: Store, strict: bool)
    ensures
      Import(w, s, store, strict).result == EofEscapes
      <==> s != [] && forall i :: 0 <= i < |s| ==> s[i] >= 128
  {
    hide ReadSections, HeaderRoots, RootsHold, Varint.Decode;
    Varint.TruncatedExactly(s);
  }

  // ---------------------------------------------------------------------
  // Reading an archive, whole or cut
  // ---------------------------------------------------------------------

  ghost predicate ContentAddressed(w: World, all: Store) {
    forall c :: c in all ==> Verified(w, c, all[c])
  }

  ghost function Restrict(all: Store, cs: seq<Cid>): Store {
    map c | c in cs && c in all :: all[c]
  }

  lemma ReadBlockBack(w: World, c: Cid, data: Bytes)
    requires Verified(w, c, data)
    ensures ReadBlock(w, Encode(c) + data) == Some((c, data))
  {
    hide Verified, CidLen, Parse, Encode;
    CidLenEncode(c, data);
    ParseEncode(c);
    assert (Encode(c) + data)[..|Encode(c)|] == Encode(c);
    assert (Encode(c) + data)[|Encode(c)|..] == data;
  }

  /** A whole section is read back, and reading goes on behind it. */
  lemma ReadSectionBack(w: World, c: Cid, data: Bytes, rest: Bytes, store: Store)
    requires Verified(w, c, data)
    ensures ReadSections(w, Section(c, data) + rest, store) == ReadSections(w, rest, store[c := data])
  {
    hide Verified, Encode, ReadBlock;
    var body := Encode(c) + data;
    var s := Section(c, data) + rest;
    assert s == Varint.Encode(|body|) + (body + rest);
    Varint.DecodeEncode(|body|, body + rest);
    assert (body + rest)[..|body|] == body && (body + rest)[|body|..] == rest;
    ReadBlockBack(w, c, data);
  }

  /** A section cut anywhere but at its ends is an error. */
  lemma CutSectionFails(w: World, c: Cid, data: Bytes, k: nat, store: Store)
    requires 0 < k < |Section(c, data)|
    ensures ReadSections(w, Section(c, data)[..k], store) == (store, false)
  {
    hide Encode;
    var body := Encode(c) + data;
    var len := Varint.Encode(|body|);
    if k < |len| {
      assert Section(c, data)[..k] == len[..k];
      Varint.DecodeCut(|body|, k);
    } else {
      assert Section(c, data)[..k] == len + body[..k - |len|];
      Varint.DecodeEncode(|body|, body[..k - |len|]);
    }
  }

  /** How many whole sections the first k bytes hold. */
  function WholeSections(all: Store, cs: seq<Cid>, k: nat): (n: nat)
    requires forall c :: c in cs ==> c in all
    ensures n <= |cs|
  {
    if cs == [] || k < |Section(cs[0], all[cs[0]])| then 0
    else 1 + WholeSections(all, cs[1..], k - |Section(cs[0], all[cs[0]])|)
  }

  /** The first k bytes end where a section ends. */
  predicate OnBoundary(all: Store, cs: seq<Cid>, k: nat)
    requires forall c :: c in cs ==> c in all
  {
    k == |Sections(all, cs[..WholeSections(all, cs, k)])|
  }

  lemma {:induction false} WholeSectionsFit(all: Store, cs: seq<Cid>, k: nat)
    requires forall c :: c in cs ==> c in all
    requires k <= |Sections(all, cs)|
    ensures |Sections(all, cs[..WholeSections(all, cs, k)])| <= k
    ensures k == |Sections(all, cs)| <==> WholeSections(all, cs, k) == |cs|
    decreases |cs|
  {
    if cs != [] && k >= |Section(cs[0], all[cs[0]])| {
      var k' := k - |Section(cs[0], all[cs[0]])|;
      WholeSectionsFit(all, cs[1..], k');
      var n := WholeSections(all, cs[1..], k');
      assert cs[..n + 1][1..] == cs[1..][..n];
    }
  }

  /** What reading k bytes of the sections of cs comes to. */
  ghost predicate ReadsCut(w: World, all: Store, cs: seq<Cid>, k: nat, store: Store)
    requires forall c :: c in cs ==> c in all
    requires k <= |Sections(all, cs)|
  {
    ReadSections(w, Sections(all, cs)[..k], store)
    == (store + Restrict(all, cs[..WholeSections(all, cs, k)]), OnBoundary(all, cs, k))
  }

  lemma FirstSectionCut(w: World, all: Store, cs: seq<Cid>, k: nat, store: Store)
    requires forall c :: c in cs ==> c in all
    requires cs != [] && k < |Section(cs[0], all[cs[0]])| && k <= |Sections(all, cs)|
    ensures ReadsCut(w, all, cs, k, store)
  {
    hide Section;
    assert Sections(all, cs)[..k] == Section(cs[0], all[cs[0]])[..k];
    if k > 0 {
      CutSectionFails(w, cs[0], all[cs[0]], k, store);
    }
    hide Encode, ReadBlock;
    assert cs[..0] == [];
    assert store + Restrict(all, []) == store;
  }

  lemma NoSections(w: World, all: Store, store: Store)
    ensures ReadsCut(w, all, [], 0, store)
  {
    assert store + Restrict(all, []) == store;
  }

  lemma RestrictSnoc(all: Store, store: Store, cs: seq<Cid>, n: nat)
    requires n < |cs| && cs[0] in all
    ensures store[cs[0] := all[cs[0]]] + Restrict(all, cs[1..][..n]) == store + Restrict(all, cs[..n + 1])
  {
    assert cs[..n + 1] == [cs[0]] + cs[1..][..n];
  }

  lemma WholeFirst(all: Store, cs: seq<Cid>, k: nat)
    requires forall c :: c in cs ==> c in all
    requires cs != [] && |Section(cs[0], all[cs[0]])| <= k <= |Sections(all, cs)|
    ensures
      var sec := Section(cs[0], all[cs[0]]);
      && k - |sec| <= |Sections(all, cs[1..])|
      && Sections(all, cs)[..k] == sec + Sections(all, cs[1..])[..k - |sec|]
      && WholeSections(all, cs, k) == WholeSections(all, cs[1..], k - |sec|) + 1
  {
    hide Section;
  }

  lemma BoundaryAfterFirst(all: Store, cs: seq<Cid>, k: nat)
    requires forall c :: c in cs ==> c in all
    requires cs != [] && |Section(cs[0], all[cs[0]])| <= k <= |Sections(all, cs)|
    ensures OnBoundary(all, cs, k) == OnBoundary(all, cs[1..], k - |Section(cs[0], all[cs[0]])|)
  {
    WholeFirst(all, cs, k);
    hide Section, WholeSections;
    var n := WholeSections(all, cs[1..], k - |Section(cs[0], all[cs[0]])|);
    var some := cs[..n + 1];
    assert some[1..] == cs[1..][..n] && some[0] == cs[0];
  }

  lemma RestStep(w: World, all: Store, cs: seq<Cid>, k: nat, store: Store)
    requires forall c :: c in cs ==> c in all
    requires cs != [] && Verified(w, cs[0], all[cs[0]])
    requires |Section(cs[0], all[cs[0]])| <= k <= |Sections(all, cs)|
    requires
      var k' := k - |Section(cs[0], all[cs[0]])|;
      k' <= |Sections(all, cs[1..])| && ReadsCut(w, all, cs[1..], k', store[cs[0] := all[cs[0]]])
    ensures ReadsCut(w, all, cs, k, store)
  {
    hide ReadSections, Section, Sections, WholeSections, OnBoundary, Restrict, Verified;
    var c, k' := cs[0], k - |Section(cs[0], all[cs[0]])|;
    WholeFirst(all, cs, k);
    BoundaryAfterFirst(all, cs, k);
    ReadSectionBack(w, c, all[c], Sections(all, cs[1..])[..k'], store);
    RestrictSnoc(all, store, cs, WholeSections(all, cs[1..], k'));
  }

  /** An archive cut after k bytes: the whole sections are stored, and only a cut between sections passes. */
  lemma {:induction false} ReadCutSections(w: World, all: Store, cs: seq<Cid>, k: nat, store: Store)
    requires forall c :: c in cs ==> c in all && Verified(w, c, all[c])
    requires k <= |Sections(all, cs)|
    ensures ReadsCut(w, all, cs, k, store)
    decreases |cs|
  {
    hide ReadsCut, Section, Verified;
    if cs == [] {
      NoSections(w, all, store);
    } else if k < |Section(cs[0], all[cs[0]])| {
      FirstSectionCut(w, all, cs, k, store);
    } else {
      var c := cs[0];
      WholeFirst(all, cs, k);
      ReadCutSections(w, all, cs[1..], k - |Section(c, all[c])|, store[c := all[c]]);
      RestStep(w, all, cs, k, store);
    }
  }

  lemma OneRoot(value: Bytes, c: Cid)
    requires value != [] && Parse(value[1..]) == Some(c)
    ensures RootCids([Tag42(value)]) == Some([c])
  {
    hide Parse;
    assert [Tag42(value)][1..] == [];
    assert [c] + [] == [c];
  }

  lemma HeaderBack(w: World, root: Cid)
    requires w.HeaderRoundTrips()
    ensures HeaderRoots(w, w.dumpHeader(HeaderOf(root))) == Some([root])
  {
    hide Parse, Encode;
    var header := HeaderOf(root);
    assert w.loadHeader(w.dumpHeader(header)) == Some(header);
    ParseEncode(root);
    var value := [0] + Encode(root);
    assert value[1..] == Encode(root);
    OneRoot(value, root);
    assert header == Header(1, [Tag42(value)]);
  }

  /** The header is read back, and the blocks behind it are read next. */
  lemma ImportPastHeader(w: World, root: Cid, rest: Bytes, into: Store, strict: bool)
    requires w.HeaderRoundTrips()
    ensures
      var (store, ok) := ReadSections(w, rest, into);
      Import(w, HeaderPart(w, root) + rest, into, strict)
      == Outcome(store, if ok && RootsHold(w, store, [root], strict) then Imported([w.show(root)]) else CarParseError)
  {
    hide ReadSections, RootsHold, HeaderRoots, HeaderOf;
    var header := w.dumpHeader(HeaderOf(root));
    assert HeaderPart(w, root) + rest == Varint.Encode(|header|) + (header + rest);
    Varint.DecodeEncode(|header|, header + rest);
    assert (header + rest)[..|header|] == header && (header + rest)[|header|..] == rest;
    HeaderBack(w, root);
    assert Shown(w, [root]) == [w.show(root)];
  }

  /** A header cut short is an error of one kind or another, except that the empty file is an archive without roots. */
  lemma CutHeaderFails(w: World, root: Cid, k: nat, into: Store, strict: bool)
    requires k < |HeaderPart(w, root)|
    ensures
      Import(w, HeaderPart(w, root)[..k], into, strict) == Outcome(into,
        if k == 0 then Imported([])
        else if k < |Varint.Encode(|w.dumpHeader(HeaderOf(root))|)| then EofEscapes
        else CarParseError)
  {
    var header := w.dumpHeader(HeaderOf(root));
    var len := Varint.Encode(|header|);
    if k < |len| {
      assert HeaderPart(w, root)[..k] == len[..k];
      Varint.DecodeCut(|header|, k);
    } else {
      assert HeaderPart(w, root)[..k] == len + header[..k - |len|];
      Varint.DecodeEncode(|header|, header[..k - |len|]);
    }
  }

  /** The store that the first n blocks of an archive give. */
  ghost function FirstBlocks(w: World, all: Store, root: Cid, n: nat): Store
    requires n <= |Walk(w, all, root)|
  {
    Restrict(all, Walk(w, all, root)[..n])
  }

  ghost predicate Exportable(w: World, all: Store, root: Cid) {
    && w.HeaderRoundTrips()
    && Complete(w, all, root)
    && ContentAddressed(w, all)
  }

  /** What any import of an archive cut after its header does. */
  lemma ImportCut(w: World, all: Store, root: Cid, k: nat, into: Store, strict: bool)
    requires Exportable(w, all, root)
    requires k <= |Sections(all, Walk(w, all, root))|
    ensures
      var walk := Walk(w, all, root);
      var store := into + FirstBlocks(w, all, root, WholeSections(all, walk, k));
      Import(w, HeaderPart(w, root) + Sections(all, walk)[..k], into, strict)
      == Outcome(store, if OnBoundary(all, walk, k) && RootsHold(w, store, [root], strict)
                        then Imported([w.show(root)]) else CarParseError)
  {
    hide Walk, Import, HeaderPart, RootsHold, OnBoundary, Verified;
    var walk := Walk(w, all, root);
    ReadCutSections(w, all, walk, k, into);
    hide ReadSections, Sections, WholeSections, Restrict;
    ImportPastHeader(w, root, Sections(all, walk)[..k], into, strict);
  }

  // ---------------------------------------------------------------------
  // The theorems
  // ---------------------------------------------------------------------

  lemma WholeArchive(w: World, all: Store, root: Cid)
    requires Complete(w, all, root)
    ensures
      var walk := Walk(w, all, root);
      var k := |Sections(all, walk)|;
      && Sections(all, walk)[..k] == Sections(all, walk)
      && WholeSections(all, walk, k) == |walk| && OnBoundary(all, walk, k)
  {
    var walk := Walk(w, all, root);
    var k := |Sections(all, walk)|;
    WholeSectionsFit(all, walk, k);
    hide Walk, Sections, WholeSections;
    assert walk[..|walk|] == walk;
  }

  /** Walks of the exported graph are the same in any store that holds its blocks. */
  lemma SameWalk(w: World, all: Store, root: Cid, store: Store)
    requires Complete(w, all, root)
    requires forall c :: c in Walk(w, all, root) ==> c in store && store[c] == all[c]
    ensures Walk(w, store, root) == Walk(w, all, root)
    ensures AllIntact(w, store, Walk(w, store, root)) <==> AllIntact(w, all, Walk(w, all, root))
  {
    var g, h := LinkGraph(w, all), LinkGraph(w, store);
    forall c | c in Walk(w, all, root)
      ensures Succ(g, c) == Succ(h, c)
    {
      SuccOfPresent(w, all, c);
      SuccOfPresent(w, store, c);
    }
    BfsAgrees(g, h, [root], {});
    hide Bfs, LinkGraph, LenientLinks, Sound;
  }

  lemma ImportWhole(w: World, all: Store, root: Cid, into: Store, strict: bool)
    requires Exportable(w, all, root)
    ensures
      var store := into + Restrict(all, Walk(w, all, root));
      Import(w, Archive(w, all, root), into, strict)
      == Outcome(store, if RootsHold(w, store, [root], strict) then Imported([w.show(root)]) else CarParseError)
  {
    hide Walk, Import, HeaderPart, RootsHold, OnBoundary;
    var walk := Walk(w, all, root);
    WholeArchive(w, all, root);
    ImportCut(w, all, root, |Sections(all, walk)|, into, strict);
    hide Sections, WholeSections, Restrict;
    assert walk[..|walk|] == walk;
  }

  /**
   An exported archive imports to exactly its root and exactly the blocks reachable
   from it; strict mode refuses it only when one of those blocks does not decode.
   */
  lemma RoundTrip(w: World, all: Store, root: Cid, into: Store, strict: bool)
    requires Exportable(w, all, root)
    ensures
      Import(w, Archive(w, all, root), into, strict)
      == Outcome(into + Restrict(all, Walk(w, all, root)),
                 if strict && !AllIntact(w, all, Walk(w, all, root)) then CarParseError else Imported([w.show(root)]))
  {
    var walk := Walk(w, all, root);
    var store := into + Restrict(all, walk);
    ImportWhole(w, all, root, into, strict);
    SameWalk(w, all, root, store);
    RootIsWalked(w, all, root);
    hide Import, Walk, Archive, AllIntact;
    assert RootsHold(w, store, [root], strict) <==> !strict || AllIntact(w, all, walk);
  }

  /** With its later blocks missing, the walk of an archive still gets to the first of them. */
  lemma CutWalkReachesMissing(w: World, all: Store, root: Cid, n: nat)
    requires Complete(w, all, root) && n < |Walk(w, all, root)|
    ensures
      var some := FirstBlocks(w, all, root, n);
      !AllIntact(w, some, Walk(w, some, root))
  {
    var walk := Walk(w, all, root);
    var some := FirstBlocks(w, all, root, n);
    var g, h := LinkGraph(w, all), LinkGraph(w, some);
    forall i | 0 <= i < n
      ensures Succ(g, walk[i]) == Succ(h, walk[i])
    {
      assert walk[i] == walk[..n][i] && walk[i] in all;
      SuccOfPresent(w, all, walk[i]);
      SuccOfPresent(w, some, walk[i]);
    }
    BfsPrefix(g, h, [root], {}, n);
    WalkCoversReachable(w, all, root);
    hide Bfs, LinkGraph, Reachable, InDistanceOrder;
    var cut := Walk(w, some, root);
    assert cut[n] == cut[..n + 1][n] == walk[n];
    assert walk[n] !in walk[..n];
    assert cut[n] in cut && cut[n] !in some;
  }

  /** Strict import of an archive cut anywhere but at its ends fails. */
  lemma StrictImportCatchesEveryCut(w: World, all: Store, root: Cid, k: nat)
    requires Exportable(w, all, root)
    requires 0 < k < |Archive(w, all, root)|
    ensures !Import(w, Archive(w, all, root)[..k], map[], true).result.Imported?
  {
    var walk := Walk(w, all, root);
    var header := HeaderPart(w, root);
    var sections := Sections(all, walk);
    assert Archive(w, all, root) == header + sections;
    hide Import, Walk, HeaderPart, Sections, Exportable, Archive;
    if k < |header| {
      assert (header + sections)[..k] == header[..k];
      CutHeaderFails(w, root, k, map[], true);
    } else {
      var j := k - |header|;
      assert (header + sections)[..k] == header + sections[..j];
      CutBlocksFail(w, all, root, j);
    }
  }

  lemma CutBlocksFail(w: World, all: Store, root: Cid, j: nat)
    requires Exportable(w, all, root)
    requires j < |Sections(all, Walk(w, all, root))|
    ensures !Import(w, HeaderPart(w, root) + Sections(all, Walk(w, all, root))[..j], map[], true).result.Imported?
  {
    hide Import, Walk, HeaderPart, Sections, OnBoundary, WholeSections, FirstBlocks, RootsHold;
    var n := WholeSections(all, Walk(w, all, root), j);
    ImportCut(w, all, root, j, map[], true);
    WholeSectionsFit(all, Walk(w, all, root), j);
    CutRootsFail(w, all, root, n);
    assert map[] + FirstBlocks(w, all, root, n) == FirstBlocks(w, all, root, n);
  }

  lemma CutRootsFail(w: World, all: Store, root: Cid, n: nat)
    requires Complete(w, all, root) && n < |Walk(w, all, root)|
    ensures !RootsHold(w, FirstBlocks(w, all, root, n), [root], true)
  {
    CutWalkReachesMissing(w, all, root, n);
    hide Walk, FirstBlocks, AllIntact;
    assert root in [root];
  }

  /** Non-strict import passes an archive cut between two sections, and no other; the empty file passes too. */
  lemma LaxImportPassesSectionCuts(w: World, all: Store, root: Cid, k: nat)
    requires Exportable(w, all, root)
    requires k <= |Archive(w, all, root)|
    ensures
      Import(w, Archive(w, all, root)[..k], map[], false).result.Imported?
      <==> k == 0 || (k > |HeaderPart(w, root)| && OnBoundary(all, Walk(w, all, root), k - |HeaderPart(w, root)|))
  {
    hide *;
    ArchiveParts(w, all, root);
    var header, sections := HeaderPart(w, root), Sections(all, Walk(w, all, root));
    if k < |header| {
      CutLeft(header, sections, k);
      CutHeaderFails(w, root, k, map[], false);
    } else {
      CutRight(header, sections, k);
      LaxCutBlocks(w, all, root, k - |header|);
    }
  }

  lemma ArchiveParts(w: World, all: Store, root: Cid)
    requires Exportable(w, all, root)
    ensures Complete(w, all, root) && (forall c :: c in Walk(w, all, root) ==> c in all)
    ensures HeaderPart(w, root) != []
    ensures Archive(w, all, root) == HeaderPart(w, root) + Sections(all, Walk(w, all, root))
  {
    hide Walk, Sections;
  }

  lemma CutLeft(a: Bytes, b: Bytes, k: nat)
    requires k <= |a|
    ensures (a + b)[..k] == a[..k]
  {
  }

  lemma CutRight(a: Bytes, b: Bytes, k: nat)
    requires |a| <= k <= |a + b|
    ensures (a + b)[..k] == a + b[..k - |a|]
  {
  }

  lemma LaxCutBlocks(w: World, all: Store, root: Cid, j: nat)
    requires Exportable(w, all, root)
    requires j <= |Sections(all, Walk(w, all, root))|
    ensures
      Import(w, HeaderPart(w, root) + Sections(all, Walk(w, all, root))[..j], map[], false).result.Imported?
      <==> j > 0 && OnBoundary(all, Walk(w, all, root), j)
  {
    hide Import, Walk, HeaderPart, Sections, WholeSections, FirstBlocks, OnBoundary;
    var walk := Walk(w, all, root);
    var n := WholeSections(all, walk, j);
    ImportCut(w, all, root, j, map[], false);
    var some := FirstBlocks(w, all, root, n);
    assert map[] + some == some;
    RootComesFirst(w, all, root, n);
    if OnBoundary(all, walk, j) {
      BoundaryMovesOn(all, walk, j);
    }
    assert root in [root];
  }

  lemma RootComesFirst(w: World, all: Store, root: Cid, n: nat)
    requires Complete(w, all, root) && n <= |Walk(w, all, root)|
    ensures root in FirstBlocks(w, all, root, n) <==> n > 0
  {
    hide Walk;
    WalkStartsWithRoot(w, all, root);
    var walk := Walk(w, all, root);
    if n > 0 {
      assert walk[..n][0] == root;
    } else {
      assert walk[..n] == [];
    }
  }

  lemma BoundaryMovesOn(all: Store, cs: seq<Cid>, j: nat)
    requires (forall c :: c in cs ==> c in all) && OnBoundary(all, cs, j)
    ensures j > 0 <==> WholeSections(all, cs, j) > 0
  {
    hide WholeSections, Section;
    var n := WholeSections(all, cs, j);
    if n > 0 {
      SomeBytes(all, cs, n);
    } else {
      assert cs[..n] == [];
    }
  }

  lemma SomeBytes(all: Store, cs: seq<Cid>, n: nat)
    requires (forall c :: c in cs ==> c in all) && 0 < n <= |cs|
    ensures Sections(all, cs[..n]) != []
  {
    assert Section(cs[0], all[cs[0]]) != [];
    hide Section;
  }

  lemma WalkStartsWithRoot(w: World, all: Store, root: Cid)
    ensures Walk(w, all, root) != [] && Walk(w, all, root)[0] == root
  {
    var g := LinkGraph(w, all);
    BfsTake(g, root, [], {});
    assert [root] + [] == [root];
  }
}
