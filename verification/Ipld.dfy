/** Decoded IPLD nodes, the links inside them, and the codec table blocks are decoded with. */
module Ipld {
  import opened Bytes
  import opened Cids

  datatype Field = Field(key: string, value: Value)

  /** A decoded node, as json.loads or cbor2.loads returns it. Scalar is every leaf that can hold no link. */
  datatype Value =
    | Dict(fields: seq<Field>)
    | List(items: seq<Value>)
    | Text(text: string)
    | Blob(bytes: Bytes)
    | Tag(tag: nat, content: Value)
    | Scalar

  datatype Codec = DagPb | DagJson | DagCbor | DagJose | IpldCodec | Raw | OtherCodec

  datatype Root = Tag42(value: Bytes) | OtherRoot

  datatype Header = Header(version: int, roots: seq<Root>)

  /**
   The libraries the code calls: codec names, decoders, CID text form, hash
   functions and the CBOR header. None stands for a raised exception.
   */
  datatype World = World(
    codecOf: Cid -> Codec,
    decodePb: Bytes -> Option<seq<Option<Cid>>>,  // a link without a cid attribute is None
    loadJson: Bytes -> Option<Value>,
    loadCbor: Bytes -> Option<Value>,
    parseText: string -> Option<Cid>,
    show: Cid -> string,
    hash: (nat, Bytes, nat) -> Option<Bytes>,
    dumpHeader: Header -> Bytes,
    loadHeader: Bytes -> Option<Header>,
    readFails: Cid -> bool)  // the store raises when it is asked for this block by gc or list_pins
  {
    /** format_cid_for_display and parse_cid are inverse on every identifier. */
    ghost predicate TextRoundTrips() {
      forall c: Cid :: parseText(show(c)) == Some(c)
    }

    /** cbor2.dumps and cbor2.loads are inverse on every header. */
    ghost predicate HeaderRoundTrips() {
      forall h: Header :: loadHeader(dumpHeader(h)) == Some(h)
    }

    lemma ShowInjective(c: Cid, d: Cid)
      requires TextRoundTrips() && show(c) == show(d)
      ensures c == d
    {
      assert parseText(show(c)) == Some(c);
    }
  }

  datatype Found = NoLink | BadLink | Link(cid: Cid)

  function Checked(parsed: Option<Cid>): (f: Found) {
    match parsed
    case None => BadLink
    case Some(c) => Link(c)
  }

  function Lookup(fields: seq<Field>, key: string): Option<Value> {
    if fields == [] then None
    else if fields[0].key == key then Some(fields[0].value)
    else Lookup(fields[1..], key)
  }

  /** The link a node is itself: a "/" entry holding text or bytes, or CBOR tag 42 past its leading byte. */
  function LinkAt(w: World, v: Value): (f: Found) {
    match v
    case Dict(fields) => (
      match Lookup(fields, "/")
      case Some(Text(s)) => Checked(w.parseText(s))
      case Some(Blob(b)) => Checked(Parse(b))
      case _ => NoLink)
    case Tag(tag, content) =>
      if tag != 42 then NoLink else (
        match content
        case Blob(b) => Checked(Parse(if b == [] then [] else b[1..]))
        case Text(s) => Checked(w.parseText(if s == [] then [] else s[1..]))
        case _ => BadLink)
    case _ => NoLink
  }

  function Values(fields: seq<Field>): (vs: seq<Value>)
    ensures |vs| == |fields| && forall i :: 0 <= i < |vs| ==> vs[i] == fields[i].value
  {
    seq(|fields|, i requires 0 <= i < |fields| => fields[i].value)
  }

  /** What the search descends into: dictionary values and list items, never the content of a tag. */
  function Kids(v: Value): (vs: seq<Value>)
    ensures forall i :: 0 <= i < |vs| ==> vs[i] < v
  {
    match v
    case Dict(fields) =>
      assert forall i :: 0 <= i < |fields| ==> fields[i].value < fields[i] < v;
      Values(fields)
    case List(items) => items
    case _ => []
  }

  /** Every link that parses, in document order. */
  function Links(w: World, v: Value): seq<Cid>
    decreases v, |Kids(v)| + 1
  {
    match LinkAt(w, v)
    case Link(c) => [c] + LinksFrom(w, v, 0)
    case _ => LinksFrom(w, v, 0)
  }

  function LinksFrom(w: World, v: Value, i: nat): seq<Cid>
    requires i <= |Kids(v)|
    decreases v, |Kids(v)| - i
  {
    if i == |Kids(v)| then [] else Links(w, Kids(v)[i]) + LinksFrom(w, v, i + 1)
  }

  /** No link anywhere in the node fails to parse. */
  predicate AllParse(w: World, v: Value)
    decreases v, |Kids(v)| + 1
  {
    LinkAt(w, v) != BadLink && AllParseFrom(w, v, 0)
  }

  predicate AllParseFrom(w: World, v: Value, i: nat)
    requires i <= |Kids(v)|
    decreases v, |Kids(v)| - i
  {
    i == |Kids(v)| || (AllParse(w, Kids(v)[i]) && AllParseFrom(w, v, i + 1))
  }

  /** The node that a path of child positions leads to carries exactly the finding f. */
  ghost predicate FoundAt(w: World, v: Value, path: seq<nat>, f: Found) {
    if path == [] then LinkAt(w, v) == f
    else path[0] < |Kids(v)| && FoundAt(w, Kids(v)[path[0]], path[1..], f)
  }

  lemma {:induction false} LinkHasPath(w: World, v: Value, c: Cid) returns (path: seq<nat>)
    requires c in Links(w, v)
    ensures FoundAt(w, v, path, Link(c))
    decreases v, |Kids(v)| + 1
  {
    if LinkAt(w, v) == Link(c) {
      path := [];
    } else {
      path := LinkHasPathFrom(w, v, 0, c);
    }
  }

  lemma {:induction false} LinkHasPathFrom(w: World, v: Value, i: nat, c: Cid) returns (path: seq<nat>)
    requires i <= |Kids(v)| && c in LinksFrom(w, v, i)
    ensures path != [] && FoundAt(w, v, path, Link(c))
    decreases v, |Kids(v)| - i
  {
    if c in Links(w, Kids(v)[i]) {
      var inner := LinkHasPath(w, Kids(v)[i], c);
      path := [i] + inner;
      assert path[1..] == inner;
    } else {
      path := LinkHasPathFrom(w, v, i + 1, c);
    }
  }

  lemma {:induction false} KidLinks(w: World, v: Value, i: nat, k: nat)
    requires i <= k < |Kids(v)|
    ensures forall c :: c in Links(w, Kids(v)[k]) ==> c in LinksFrom(w, v, i)
    ensures AllParseFrom(w, v, i) ==> AllParse(w, Kids(v)[k])
    decreases k - i
  {
    if i < k {
      KidLinks(w, v, i + 1, k);
    }
  }

  lemma {:induction false} PathGivesLink(w: World, v: Value, path: seq<nat>, f: Found)
    requires FoundAt(w, v, path, f) && f != NoLink
    ensures f.Link? ==> f.cid in Links(w, v)
    ensures f.BadLink? ==> !AllParse(w, v)
    decreases path
  {
    if path != [] {
      PathGivesLink(w, Kids(v)[path[0]], path[1..], f);
      KidLinks(w, v, 0, path[0]);
    }
  }

  // ---------------------------------------------------------------------
  // What counts as a link, and where
  // ---------------------------------------------------------------------

  /** The first entry under the key is the i-th. */
  ghost predicate EntryAt(fields: seq<Field>, key: string, i: nat) {
    i < |fields| && fields[i].key == key && forall j :: 0 <= j < i ==> fields[j].key != key
  }

  /** What text names as a link, and what bytes are one. */
  ghost predicate Names(w: World, v: Value, c: Cid) {
    match v
    case Text(s) => w.parseText(s) == Some(c)
    case Blob(b) => b == Encode(c)
    case _ => false
  }

  function DropFirst(v: Value): Value {
    match v
    case Text(s) => if s == [] then v else Text(s[1..])
    case Blob(b) => if b == [] then v else Blob(b[1..])
    case _ => v
  }

  /** A dictionary whose "/" entry names c, or CBOR tag 42 whose content names it behind one leading byte. */
  ghost predicate IsLink(w: World, v: Value, c: Cid) {
    match v
    case Dict(fields) => exists i: nat :: EntryAt(fields, "/", i) && Names(w, fields[i].value, c)
    case Tag(tag, content) => tag == 42 && Names(w, DropFirst(content), c)
    case _ => false
  }

  /** Meant as a link: a dictionary with text or bytes under "/", or CBOR tag 42 with anything. */
  ghost predicate MeantAsLink(v: Value) {
    match v
    case Dict(fields) => exists i: nat :: EntryAt(fields, "/", i) && (fields[i].value.Text? || fields[i].value.Blob?)
    case Tag(tag, _) => tag == 42
    case _ => false
  }

  ghost predicate IsBadLink(w: World, v: Value) {
    MeantAsLink(v) && forall c :: !IsLink(w, v, c)
  }

  /** The node at the end of a path of positions in dictionaries and lists; the content of a tag is not entered. */
  ghost function At(v: Value, path: seq<nat>): Option<Value>
    decreases |path|
  {
    if path == [] then Some(v)
    else match v
      case Dict(fields) => if path[0] < |fields| then At(fields[path[0]].value, path[1..]) else None
      case List(items) => if path[0] < |items| then At(items[path[0]], path[1..]) else None
      case _ => None
  }

  /** Somewhere among nested dictionaries and lists there is a link to c. */
  ghost predicate Nested(w: World, v: Value, c: Cid) {
    exists path: seq<nat> :: At(v, path).Some? && IsLink(w, At(v, path).value, c)
  }

  /** Somewhere there is something meant as a link that is none. */
  ghost predicate HasBadLink(w: World, v: Value) {
    exists path: seq<nat> :: At(v, path).Some? && IsBadLink(w, At(v, path).value)
  }

  lemma {:induction false} LookupFinds(fields: seq<Field>, key: string)
    ensures Lookup(fields, key).None? ==> forall i: nat :: !EntryAt(fields, key, i)
    ensures Lookup(fields, key).Some? ==>
      exists i: nat :: EntryAt(fields, key, i) && fields[i].value == Lookup(fields, key).value
  {
    if fields != [] && fields[0].key == key {
      assert EntryAt(fields, key, 0);
    } else if fields != [] {
      var rest := fields[1..];
      LookupFinds(rest, key);
      if Lookup(rest, key).Some? {
        var i: nat :| EntryAt(rest, key, i) && rest[i].value == Lookup(rest, key).value;
        assert EntryAt(fields, key, i + 1);
      } else if i: nat :| EntryAt(fields, key, i) {
        assert forall j :: 0 <= j < i - 1 ==> rest[j] == fields[j + 1];
        assert EntryAt(rest, key, i - 1);
      }
    }
  }

  lemma EntryIsUnique(fields: seq<Field>, key: string, i: nat, j: nat)
    requires EntryAt(fields, key, i) && EntryAt(fields, key, j)
    ensures i == j
  {
  }

  function CheckName(w: World, v: Value): Found {
    match v
    case Text(s) => Checked(w.parseText(s))
    case Blob(b) => Checked(Parse(b))
    case _ => NoLink
  }

  lemma CheckNameExactly(w: World, v: Value, c: Cid)
    ensures CheckName(w, v) == Link(c) <==> Names(w, v, c)
    ensures CheckName(w, v) == NoLink <==> !v.Text? && !v.Blob?
  {
    hide Parse, Encode;
    ParseEncode(c);
  }

  lemma DictLinkAt(w: World, fields: seq<Field>, c: Cid)
    ensures LinkAt(w, Dict(fields)) == Link(c) <==> IsLink(w, Dict(fields), c)
    ensures LinkAt(w, Dict(fields)) == NoLink <==> !MeantAsLink(Dict(fields))
  {
    hide Parse, Encode;
    LookupFinds(fields, "/");
    var found := Lookup(fields, "/");
    if found.Some? {
      var i: nat :| EntryAt(fields, "/", i) && fields[i].value == found.value;
      CheckNameExactly(w, found.value, c);
      assert LinkAt(w, Dict(fields)) == CheckName(w, found.value);
      hide LinkAt, Lookup, CheckName, Names, EntryAt;
      forall j: nat | EntryAt(fields, "/", j)
        ensures j == i
      {
        EntryIsUnique(fields, "/", i, j);
      }
    }
  }

  lemma TagLinkAt(w: World, tag: nat, content: Value, c: Cid)
    ensures LinkAt(w, Tag(tag, content)) == Link(c) <==> IsLink(w, Tag(tag, content), c)
    ensures LinkAt(w, Tag(tag, content)) == NoLink <==> !MeantAsLink(Tag(tag, content))
  {
    hide Parse, Encode;
    CheckNameExactly(w, DropFirst(content), c);
    assert content == Blob([]) ==> LinkAt(w, Tag(42, content)) == CheckName(w, Blob([]));
    assert content == Text([]) ==> LinkAt(w, Tag(42, content)) == CheckName(w, Text([]));
  }

  /** A node is found to be the link it is, is found bad when it is meant as one, and is passed over otherwise. */
  lemma LinkAtExactly(w: World, v: Value, c: Cid)
    ensures LinkAt(w, v) == Link(c) <==> IsLink(w, v, c)
    ensures LinkAt(w, v) == NoLink <==> !MeantAsLink(v)
  {
    match v
    case Dict(fields) => DictLinkAt(w, fields, c);
    case Tag(tag, content) => TagLinkAt(w, tag, content, c);
    case _ =>
  }

  lemma BadLinkExactly(w: World, v: Value)
    ensures LinkAt(w, v) == BadLink <==> IsBadLink(w, v)
  {
    forall c
      ensures LinkAt(w, v) == Link(c) <==> IsLink(w, v, c)
      ensures LinkAt(w, v) == NoLink <==> !MeantAsLink(v)
    {
      LinkAtExactly(w, v, c);
    }
    LinkAtExactly(w, v, V1(0, 0, []));
    var found := LinkAt(w, v);
    hide LinkAt, IsLink, MeantAsLink;
    if found.Link? {
      assert IsLink(w, v, found.cid);
    }
  }

  lemma {:induction false} FoundAtEnd(w: World, v: Value, path: seq<nat>, f: Found)
    ensures FoundAt(w, v, path, f) <==> At(v, path).Some? && LinkAt(w, At(v, path).value) == f
    decreases |path|
  {
    hide LinkAt;
    if path != [] && path[0] < |Kids(v)| {
      FoundAtEnd(w, Kids(v)[path[0]], path[1..], f);
    }
  }

  lemma {:induction false} BadLinkHasPath(w: World, v: Value) returns (path: seq<nat>)
    requires !AllParse(w, v)
    ensures FoundAt(w, v, path, BadLink)
    decreases v, |Kids(v)| + 1
  {
    if LinkAt(w, v) == BadLink {
      path := [];
    } else {
      path := BadLinkHasPathFrom(w, v, 0);
    }
  }

  lemma {:induction false} BadLinkHasPathFrom(w: World, v: Value, i: nat) returns (path: seq<nat>)
    requires i <= |Kids(v)| && !AllParseFrom(w, v, i)
    ensures FoundAt(w, v, path, BadLink)
    decreases v, |Kids(v)| - i
  {
    if !AllParse(w, Kids(v)[i]) {
      var inner := BadLinkHasPath(w, Kids(v)[i]);
      path := [i] + inner;
      assert path[1..] == inner;
    } else {
      path := BadLinkHasPathFrom(w, v, i + 1);
    }
  }

  /** extract_cids finds exactly the links that sit in nested dictionaries and lists. */
  lemma LinksAreExactlyTheNestedOnes(w: World, v: Value, c: Cid)
    ensures c in Links(w, v) <==> Nested(w, v, c)
  {
    hide FoundAt, At, IsLink, LinkAt, Links;
    if c in Links(w, v) {
      var path := LinkHasPath(w, v, c);
      FoundAtEnd(w, v, path, Link(c));
      LinkAtExactly(w, At(v, path).value, c);
    } else if Nested(w, v, c) {
      var path: seq<nat> :| At(v, path).Some? && IsLink(w, At(v, path).value, c);
      LinkAtExactly(w, At(v, path).value, c);
      FoundAtEnd(w, v, path, Link(c));
      PathGivesLink(w, v, path, Link(c));
      assert false;
    }
  }

  /** A node has a bad link somewhere exactly when strict mode minds it. */
  lemma BadLinksAreMinded(w: World, v: Value)
    ensures AllParse(w, v) <==> !HasBadLink(w, v)
  {
    hide FoundAt, At, IsBadLink, LinkAt, AllParse;
    if !AllParse(w, v) {
      var path := BadLinkHasPath(w, v);
      FoundAtEnd(w, v, path, BadLink);
      BadLinkExactly(w, At(v, path).value);
    } else if HasBadLink(w, v) {
      var path: seq<nat> :| At(v, path).Some? && IsBadLink(w, At(v, path).value);
      BadLinkExactly(w, At(v, path).value);
      FoundAtEnd(w, v, path, BadLink);
      PathGivesLink(w, v, path, BadLink);
      assert false;
    }
  }

  // ---------------------------------------------------------------------
  // Document order
  // ---------------------------------------------------------------------

  lemma ListStep(w: World, items: seq<Value>, i: nat)
    requires i <= |items|
    ensures i <= |Kids(List(items))|
    ensures
      LinksFrom(w, List(items), i)
      == if i == |items| then [] else Links(w, items[i]) + LinksFrom(w, List(items), i + 1)
  {
    hide Links;
  }

  lemma {:induction false} ListLinksFrom(w: World, items: seq<Value>, x: Value, i: nat)
    requires i <= |items|
    ensures LinksFrom(w, List(items + [x]), i) == LinksFrom(w, List(items), i) + Links(w, x)
    decreases |items| - i
  {
    hide *;
    var longer := items + [x];
    ListStep(w, longer, i);
    ListStep(w, items, i);
    if i < |items| {
      ListLinksFrom(w, items, x, i + 1);
      assert longer[i] == items[i];
    } else {
      ListStep(w, longer, i + 1);
      assert Links(w, x) + [] == Links(w, x) == [] + Links(w, x);
    }
  }

  lemma {:induction false} DictLinksFrom(w: World, fields: seq<Field>, i: nat)
    requires i <= |fields|
    ensures LinksFrom(w, Dict(fields), i) == LinksFrom(w, List(Values(fields)), i)
    decreases |fields| - i
  {
    hide Links;
    if i < |fields| {
      DictLinksFrom(w, fields, i + 1);
    }
  }

  /**
   Links come in document order: a list's are those of its items one after the other, a
   dictionary's are its own and then those of its values, and a tag has its own only.
   */
  lemma LinksInDocumentOrder(w: World, items: seq<Value>, x: Value, fields: seq<Field>, c: Cid, tag: nat)
    ensures Links(w, List([])) == [] && Links(w, List(items + [x])) == Links(w, List(items)) + Links(w, x)
    ensures IsLink(w, Dict(fields), c) ==> Links(w, Dict(fields)) == [c] + Links(w, List(Values(fields)))
    ensures (forall d :: !IsLink(w, Dict(fields), d)) ==> Links(w, Dict(fields)) == Links(w, List(Values(fields)))
    ensures IsLink(w, Tag(tag, x), c) ==> Links(w, Tag(tag, x)) == [c]
    ensures (forall d :: !IsLink(w, Tag(tag, x), d)) ==> Links(w, Tag(tag, x)) == []
  {
    ListLinksFrom(w, items, x, 0);
    DictLinksFrom(w, fields, 0);
    LinkAtExactly(w, Dict(fields), c);
    LinkAtExactly(w, Tag(tag, x), c);
    if forall d :: !IsLink(w, Dict(fields), d) {
      NotLinkAt(w, Dict(fields));
    }
    if forall d :: !IsLink(w, Tag(tag, x), d) {
      NotLinkAt(w, Tag(tag, x));
    }
    assert LinkAt(w, List(items)) == LinkAt(w, List(items + [x])) == LinkAt(w, List(Values(fields))) == NoLink;
    assert LinksFrom(w, List([]), 0) == [] && LinksFrom(w, Tag(tag, x), 0) == [];
    hide LinkAt, IsLink, LinksFrom;
    assert [c] + [] == [c];
  }

  lemma NotLinkAt(w: World, v: Value)
    requires forall d :: !IsLink(w, v, d)
    ensures !LinkAt(w, v).Link?
  {
    if LinkAt(w, v).Link? {
      LinkAtExactly(w, v, LinkAt(w, v).cid);
    }
  }

  lemma FromStep(w: World, v: Value, i: nat)
    requires i < |Kids(v)|
    ensures LinksFrom(w, v, i) == Links(w, Kids(v)[i]) + LinksFrom(w, v, i + 1)
    ensures AllParseFrom(w, v, i) <==> AllParse(w, Kids(v)[i]) && AllParseFrom(w, v, i + 1)
  {
  }

  lemma KidsEnd(w: World, v: Value)
    ensures LinksFrom(w, v, |Kids(v)|) == [] && AllParseFrom(w, v, |Kids(v)|)
  {
  }

  lemma AtNode(w: World, v: Value)
    ensures Links(w, v) == (if LinkAt(w, v).Link? then [LinkAt(w, v).cid] else []) + LinksFrom(w, v, 0)
    ensures AllParse(w, v) <==> LinkAt(w, v) != BadLink && AllParseFrom(w, v, 0)
  {
    hide LinkAt, Kids, LinksFrom, AllParseFrom;
    var rest := LinksFrom(w, v, 0);
    assert [] + rest == rest;
  }

  lemma AppendAppend<T>(a: seq<T>, b: seq<T>, c: seq<T>)
    ensures a + (b + c) == a + b + c
  {
  }

  /** The list that the nested function of extract_cids appends to. */
  class Collector {
    var cids: seq<Cid>

    constructor ()
      ensures cids == []
    {
      cids := [];
    }

    /** _extract; the result is false when an exception escapes. */
    method Extract(w: World, curr: Value, strict: bool) returns (ok: bool)
      modifies this
      ensures ok <==> !strict || AllParse(w, curr)
      ensures ok ==> cids == old(cids) + Links(w, curr)
      decreases curr, 1
    {
      AtNode(w, curr);
      hide Links, LinksFrom, AllParse, AllParseFrom, LinkAt;
      var found := LinkAt(w, curr);
      if found == BadLink && strict {
        return false;
      }
      if found.Link? {
        cids := cids + [found.cid];
      }
      ok := ExtractKids(w, curr, 0, strict);
    }

    /** The loop of _extract over the values or items of curr, from the i-th on. */
    method ExtractKids(w: World, curr: Value, start: nat, strict: bool) returns (ok: bool)
      requires start <= |Kids(curr)|
      modifies this
      ensures ok <==> !strict || AllParseFrom(w, curr, start)
      ensures ok ==> cids == old(cids) + LinksFrom(w, curr, start)
      decreases curr, 0
    {
      KidsEnd(w, curr);
      hide Links, LinksFrom, AllParse, AllParseFrom;
      ghost var all := cids + LinksFrom(w, curr, start);
      ghost var good := AllParseFrom(w, curr, start);
      var i := start;
      while i < |Kids(curr)|
        invariant start <= i <= |Kids(curr)|
        invariant all == cids + LinksFrom(w, curr, i)
        invariant strict ==> good == AllParseFrom(w, curr, i)
      {
        FromStep(w, curr, i);
        ghost var had := cids;
        ok := Extract(w, Kids(curr)[i], strict);
        if !ok {
          return;
        }
        AppendAppend(had, Links(w, Kids(curr)[i]), LinksFrom(w, curr, i + 1));
        i := i + 1;
      }
      ok := true;
    }
  }

  method ExtractCids(w: World, node: Value, strict: bool) returns (r: Option<seq<Cid>>)
    ensures r == if strict && !AllParse(w, node) then None else Some(Links(w, node))
    ensures r == None <==> strict && HasBadLink(w, node)
    ensures r.Some? ==> forall c :: c in r.value <==> Nested(w, node, c)
  {
    hide Links, AllParse, Nested, HasBadLink;
    BadLinksAreMinded(w, node);
    forall c
      ensures c in Links(w, node) <==> Nested(w, node, c)
    {
      LinksAreExactlyTheNestedOnes(w, node, c);
    }
    var collector := new Collector();
    var ok := collector.Extract(w, node, strict);
    assert [] + Links(w, node) == Links(w, node);
    r := if ok then Some(collector.cids) else None;
  }

  /** decode_node, for the codecs whose blocks are searched for links. */
  function DecodeNode(w: World, codec: Codec, data: Bytes): Option<Value> {
    match codec
    case DagJson => w.loadJson(data)
    case DagCbor => w.loadCbor(data)
    case _ => None  // an unsupported codec raises ValueError
  }

  function PresentCids(links: seq<Option<Cid>>): (cs: seq<Cid>) {
    if links == [] then []
    else match links[0]
      case Some(c) => [c] + PresentCids(links[1..])
      case None => PresentCids(links[1..])
  }

  lemma {:induction false} PresentCidsAppend(a: seq<Option<Cid>>, b: seq<Option<Cid>>)
    ensures PresentCids(a + b) == PresentCids(a) + PresentCids(b)
  {
    if a == [] {
      assert a + b == b;
    } else {
      assert (a + b)[1..] == a[1..] + b;
      PresentCidsAppend(a[1..], b);
    }
  }

  /** Each link with an identifier gives it and every other nothing, one link after the other. */
  lemma PresentCidsInOrder(links: seq<Option<Cid>>, link: Option<Cid>)
    ensures PresentCids([]) == []
    ensures PresentCids(links + [link]) == PresentCids(links) + if link.Some? then [link.value] else []
  {
    PresentCidsAppend(links, [link]);
    assert [link][1..] == [];
  }

  lemma {:induction false} PresentCidsExactly(links: seq<Option<Cid>>, c: Cid)
    ensures c in PresentCids(links) <==> Some(c) in links
  {
    if links != [] {
      PresentCidsExactly(links[1..], c);
      assert links == [links[0]] + links[1..];
    }
  }

  /** The links a walk follows out of a block when failures are ignored. */
  function LenientLinks(w: World, c: Cid, data: Bytes): seq<Cid> {
    match w.codecOf(c)
    case DagPb => (
      match w.decodePb(data)
      case Some(links) => PresentCids(links)
      case None => [])
    case Raw => []
    case OtherCodec => []
    case codec => (
      match DecodeNode(w, codec, data)
      case Some(node) => Links(w, node)
      case None => [])
  }

  /** The block decodes and all its links parse, so strict mode does not raise on it. */
  predicate Sound(w: World, c: Cid, data: Bytes) {
    match w.codecOf(c)
    case DagPb => w.decodePb(data).Some?
    case Raw => true
    case OtherCodec => true
    case codec =>
      var node := DecodeNode(w, codec, data);
      node.Some? && AllParse(w, node.value)
  }
}
