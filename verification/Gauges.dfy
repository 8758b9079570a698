/** The block store wrapper that keeps two gauges (metrics.py). */
module Gauges {
  import opened Bytes
  import opened Cids
  import opened Dag

  type Blocks = seq<(Cid, Bytes)>

  datatype State = State(store: Store, blocksTotal: int, sizeBytes: int)

  ghost function TotalSize(store: Store): nat {
    if store == map[] then 0 else
      var c :| c in store;
      |store[c]| + TotalSize(store - {c})
  }

  lemma {:induction false} SizeSplit(store: Store, c: Cid)
    requires c in store
    ensures TotalSize(store) == |store[c]| + TotalSize(store - {c})
    decreases |store|
  {
    var d :| d in store && TotalSize(store) == |store[d]| + TotalSize(store - {d});
    if d != c {
      SizeSplit(store - {d}, c);
      SizeSplit(store - {c}, d);
      assert store - {d} - {c} == store - {c} - {d};
    }
  }

  lemma PutCount(store: Store, c: Cid, data: Bytes)
    ensures |store[c := data]| == |store| + if c in store then 0 else 1
  {
    var after := store[c := data];
    assert after.Keys == store.Keys + {c};
  }

  lemma PutSize(store: Store, c: Cid, data: Bytes)
    ensures TotalSize(store[c := data]) == TotalSize(store) + |data| - if c in store then |store[c]| else 0
    ensures |store[c := data]| == |store| + if c in store then 0 else 1
  {
    hide TotalSize;
    PutCount(store, c, data);
    SizeSplit(store[c := data], c);
    if c in store {
      SizeSplit(store, c);
      assert store[c := data] - {c} == store - {c};
    } else {
      assert store[c := data] - {c} == store;
    }
  }

  /** The gauges show what is stored. */
  ghost predicate Agree(s: State) {
    s.blocksTotal == |s.store| && s.sizeBytes == TotalSize(s.store)
  }

  // ---------------------------------------------------------------------
  // The operations
  // ---------------------------------------------------------------------

  function Put(s: State, c: Cid, data: Bytes): State {
    if c in s.store then s.(store := s.store[c := data])
    else State(s.store[c := data], s.blocksTotal + 1, s.sizeBytes + |data|)
  }

  function Delete(s: State, c: Cid): State {
    if c !in s.store then s
    else
      var size := |s.store[c]|;
      State(s.store - {c},
            if s.blocksTotal > 0 then s.blocksTotal - 1 else s.blocksTotal,
            if size > 0 && s.sizeBytes >= size then s.sizeBytes - size else s.sizeBytes)
  }

  function WriteAll(store: Store, blocks: Blocks): Store {
    if blocks == [] then store
    else WriteAll(store, blocks[..|blocks| - 1])[blocks[|blocks| - 1].0 := blocks[|blocks| - 1].1]
  }

  /** The entries not stored when put_many begins, duplicates included. */
  function NewOnes(store: Store, blocks: Blocks): Blocks {
    if blocks == [] then []
    else
      var last := blocks[|blocks| - 1];
      NewOnes(store, blocks[..|blocks| - 1]) + if last.0 in store then [] else [last]
  }

  function SumSizes(blocks: Blocks): nat {
    if blocks == [] then 0 else SumSizes(blocks[..|blocks| - 1]) + |blocks[|blocks| - 1].1|
  }

  function PutMany(s: State, blocks: Blocks): State {
    var added := NewOnes(s.store, blocks);
    State(WriteAll(s.store, blocks), s.blocksTotal + |added|, s.sizeBytes + SumSizes(added))
  }

  /** What a batch leaves under c: the last entry for it, or what was stored. */
  ghost function LastOf(store: Store, blocks: Blocks, c: Cid): Bytes
    decreases |blocks|
  {
    if blocks == [] then (if c in store then store[c] else [])
    else if blocks[|blocks| - 1].0 == c then blocks[|blocks| - 1].1
    else LastOf(store, blocks[..|blocks| - 1], c)
  }

  lemma {:induction false} LastWriteWins(store: Store, blocks: Blocks, c: Cid)
    ensures c in WriteAll(store, blocks) <==> c in store || exists i :: 0 <= i < |blocks| && blocks[i].0 == c
    ensures c in WriteAll(store, blocks) ==> WriteAll(store, blocks)[c] == LastOf(store, blocks, c)
  {
    if blocks != [] {
      var rest := blocks[..|blocks| - 1];
      LastWriteWins(store, rest, c);
      assert forall i :: 0 <= i < |rest| ==> rest[i] == blocks[i];
    }
  }

  class MetricsBlockStore {
    var store: Store
    var blocksTotal: int
    var sizeBytes: int

    function Now(): State
      reads this
    {
      State(store, blocksTotal, sizeBytes)
    }

    constructor ()
      ensures Now() == State(map[], 0, 0) && Agree(Now())
    {
      store, blocksTotal, sizeBytes := map[], 0, 0;
    }

    method PutBlock(c: Cid, data: Bytes)
      modifies this
      ensures Now() == Put(old(Now()), c, data)
      ensures store == old(store)[c := data]
    {
      var present := c in store;
      store := store[c := data];
      if !present {
        blocksTotal := blocksTotal + 1;
        sizeBytes := sizeBytes + |data|;
      }
    }

    method DeleteBlock(c: Cid)
      modifies this
      ensures Now() == Delete(old(Now()), c)
      ensures store == old(store) - {c}
    {
      if c !in store {
        return;
      }
      var size := |store[c]|;
      store := store - {c};
      if blocksTotal > 0 {
        blocksTotal := blocksTotal - 1;
      }
      if size > 0 && sizeBytes >= size {
        sizeBytes := sizeBytes - size;
      }
    }

    /** put_many: what is new is decided before anything is written. */
    method PutBlocks(blocks: Blocks)
      modifies this
      ensures Now() == PutMany(old(Now()), blocks)
      ensures forall c :: c in store <==> c in old(store) || exists i :: 0 <= i < |blocks| && blocks[i].0 == c
      ensures forall c :: c in store ==> store[c] == LastOf(old(store), blocks, c)
    {
      hide WriteAll, LastOf;
      forall c
        ensures c in WriteAll(store, blocks) <==> c in store || exists i :: 0 <= i < |blocks| && blocks[i].0 == c
        ensures c in WriteAll(store, blocks) ==> WriteAll(store, blocks)[c] == LastOf(store, blocks, c)
      {
        LastWriteWins(store, blocks, c);
      }
      var added: Blocks := [];
      var i := 0;
      while i < |blocks|
        invariant i <= |blocks| && added == NewOnes(store, blocks[..i])
      {
        assert blocks[..i + 1][..i] == blocks[..i];
        if blocks[i].0 !in store {
          added := added + [blocks[i]];
        }
        i := i + 1;
      }
      assert blocks[..i] == blocks;
      WriteBlocks(blocks);
      i := 0;
      while i < |added|
        invariant i <= |added|
        invariant store == WriteAll(old(store), blocks)
        invariant blocksTotal == old(blocksTotal) + i
        invariant sizeBytes == old(sizeBytes) + SumSizes(added[..i])
      {
        assert added[..i + 1][..i] == added[..i];
        blocksTotal := blocksTotal + 1;
        sizeBytes := sizeBytes + |added[i].1|;
        i := i + 1;
      }
      assert added[..i] == added;
    }

    method WriteBlocks(blocks: Blocks)
      modifies this`store
      ensures store == WriteAll(old(store), blocks)
    {
      var i := 0;
      while i < |blocks|
        invariant i <= |blocks| && store == WriteAll(old(store), blocks[..i])
      {
        assert blocks[..i + 1][..i] == blocks[..i];
        store := store[blocks[i].0 := blocks[i].1];
        i := i + 1;
      }
      assert blocks[..i] == blocks;
    }
  }

  // ---------------------------------------------------------------------
  // When the gauges stay true
  // ---------------------------------------------------------------------

  /** Writing one block keeps the gauges true if and only if it does not replace a block by one of another size. */
  lemma PutAgreesExactly(s: State, c: Cid, data: Bytes)
    requires Agree(s)
    ensures Agree(Put(s, c, data)) <==> (c in s.store ==> |s.store[c]| == |data|)
  {
    PutSize(s.store, c, data);
  }

  /** Deleting keeps the gauges true, and neither guard skips a decrement that is due. */
  lemma DeleteAgrees(s: State, c: Cid)
    requires Agree(s)
    ensures Agree(Delete(s, c))
    ensures c in s.store ==>
      Delete(s, c) == State(s.store - {c}, s.blocksTotal - 1, s.sizeBytes - |s.store[c]|)
  {
    if c in s.store {
      SizeSplit(s.store, c);
      assert (s.store - {c}).Keys == s.store.Keys - {c};
    }
  }

  /** One identifier, one content: in the list, and between the list and the store. */
  ghost predicate ContentAddressed(store: Store, blocks: Blocks) {
    && (forall i :: 0 <= i < |blocks| && blocks[i].0 in store ==> store[blocks[i].0] == blocks[i].1)
    && forall i, j :: 0 <= i < j < |blocks| && blocks[i].0 == blocks[j].0 ==> blocks[i].1 == blocks[j].1
  }

  ghost predicate Repeats(store: Store, blocks: Blocks, j: nat) {
    j < |blocks| && blocks[j].0 !in store && exists i :: 0 <= i < j && blocks[i].0 == blocks[j].0
  }

  /** No block that is new to the store is listed twice. */
  ghost predicate NewAreDistinct(store: Store, blocks: Blocks) {
    forall j :: !Repeats(store, blocks, j)
  }

  lemma {:induction false} WrittenHolds(store: Store, blocks: Blocks, c: Cid)
    requires ContentAddressed(store, blocks)
    ensures c in WriteAll(store, blocks) <==> c in store || exists i :: 0 <= i < |blocks| && blocks[i].0 == c
    ensures c in store ==> WriteAll(store, blocks)[c] == store[c]
    ensures forall i :: 0 <= i < |blocks| && blocks[i].0 == c ==> WriteAll(store, blocks)[c] == blocks[i].1
  {
    if blocks != [] {
      var rest := blocks[..|blocks| - 1];
      WrittenHolds(store, rest, c);
      assert forall i :: 0 <= i < |rest| ==> rest[i] == blocks[i];
    }
  }

  /** How the gauges' increments compare with what a batch really adds. */
  ghost predicate CountsRight(store: Store, blocks: Blocks) {
    var added, after := NewOnes(store, blocks), WriteAll(store, blocks);
    && |after| <= |store| + |added|
    && (NewAreDistinct(store, blocks) <==> |after| == |store| + |added|)
    && (NewAreDistinct(store, blocks) ==> TotalSize(after) == TotalSize(store) + SumSizes(added))
  }

  lemma DistinctSnoc(store: Store, rest: Blocks, last: (Cid, Bytes))
    requires ContentAddressed(store, rest)
    ensures
      NewAreDistinct(store, rest + [last])
      <==> NewAreDistinct(store, rest) && (last.0 in store || last.0 !in WriteAll(store, rest))
  {
    var blocks, n := rest + [last], |rest|;
    WrittenHolds(store, rest, last.0);
    hide WriteAll;
    assert forall i :: 0 <= i < n ==> rest[i] == blocks[i];
    assert forall j: nat :: j < n ==> Repeats(store, rest, j) == Repeats(store, blocks, j);
    assert Repeats(store, blocks, n) <==> last.0 !in store && exists i :: 0 <= i < n && rest[i].0 == last.0;
    assert forall j: nat :: j > n ==> !Repeats(store, blocks, j);
    assert forall j: nat :: j >= n ==> !Repeats(store, rest, j);
  }

  lemma AddedSnoc(store: Store, rest: Blocks, last: (Cid, Bytes))
    ensures
      var added, added' := NewOnes(store, rest), NewOnes(store, rest + [last]);
      && |added'| == |added| + (if last.0 in store then 0 else 1)
      && SumSizes(added') == SumSizes(added) + (if last.0 in store then 0 else |last.1|)
    ensures WriteAll(store, rest + [last]) == WriteAll(store, rest)[last.0 := last.1]
  {
    var blocks := rest + [last];
    assert blocks[..|blocks| - 1] == rest;
    var added := NewOnes(store, rest);
    assert (added + [last])[..|added|] == added;
    assert added + [] == added;
  }

  lemma CountsRightSnoc(store: Store, rest: Blocks, last: (Cid, Bytes))
    requires ContentAddressed(store, rest + [last]) && ContentAddressed(store, rest) && CountsRight(store, rest)
    ensures CountsRight(store, rest + [last])
  {
    hide WriteAll, NewOnes, SumSizes, NewAreDistinct, TotalSize;
    AddedSnoc(store, rest, last);
    DistinctSnoc(store, rest, last);
    WrittenHolds(store, rest, last.0);
    PutSize(WriteAll(store, rest), last.0, last.1);
    assert last.0 in store ==> store[last.0] == last.1 by {
      assert (rest + [last])[|rest|] == last;
    }
  }

  lemma {:induction false} NewCounts(store: Store, blocks: Blocks)
    requires ContentAddressed(store, blocks)
    ensures CountsRight(store, blocks)
  {
    if blocks != [] {
      var rest, last := blocks[..|blocks| - 1], blocks[|blocks| - 1];
      assert blocks == rest + [last];
      assert forall i :: 0 <= i < |rest| ==> rest[i] == blocks[i];
      assert ContentAddressed(store, rest);
      hide ContentAddressed, CountsRight;
      NewCounts(store, rest);
      CountsRightSnoc(store, rest, last);
    }
  }

  /** A batch of content-addressed blocks keeps the gauges true if and only if no new block is listed twice. */
  lemma PutManyAgreesExactly(s: State, blocks: Blocks)
    requires Agree(s) && ContentAddressed(s.store, blocks)
    ensures Agree(PutMany(s, blocks)) <==> NewAreDistinct(s.store, blocks)
  {
    NewCounts(s.store, blocks);
    hide NewOnes, WriteAll, SumSizes, TotalSize, NewAreDistinct;
  }

  // ---------------------------------------------------------------------
  // Whole runs
  // ---------------------------------------------------------------------

  datatype Op = PutOp(c: Cid, data: Bytes) | DeleteOp(c: Cid) | PutManyOp(blocks: Blocks)

  function After(s: State, op: Op): State {
    match op
    case PutOp(c, data) => Put(s, c, data)
    case DeleteOp(c) => Delete(s, c)
    case PutManyOp(blocks) => PutMany(s, blocks)
  }

  function Run(s: State, ops: seq<Op>): State
    decreases |ops|
  {
    if ops == [] then s else Run(After(s, ops[0]), ops[1..])
  }

  ghost predicate Sane(s: State, op: Op) {
    match op
    case PutOp(c, data) => c in s.store ==> |s.store[c]| == |data|
    case DeleteOp(c) => true
    case PutManyOp(blocks) => ContentAddressed(s.store, blocks) && NewAreDistinct(s.store, blocks)
  }

  ghost predicate AllSane(s: State, ops: seq<Op>)
    decreases |ops|
  {
    ops != [] ==> Sane(s, ops[0]) && AllSane(After(s, ops[0]), ops[1..])
  }

  lemma {:induction false} RunAgrees(s: State, ops: seq<Op>)
    requires Agree(s) && AllSane(s, ops)
    ensures Agree(Run(s, ops))
    decreases |ops|
  {
    if ops != [] {
      match ops[0] {
        case PutOp(c, data) => PutAgreesExactly(s, c, data);
        case DeleteOp(c) => DeleteAgrees(s, c);
        case PutManyOp(blocks) => PutManyAgreesExactly(s, blocks);
      }
      hide After, Agree, Sane;
      RunAgrees(After(s, ops[0]), ops[1..]);
    }
  }
}
