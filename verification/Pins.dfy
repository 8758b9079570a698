/** The pin table (pin.py). */
module Pins {
  import opened Bytes
  import opened Ipld

  /** What pins.json may hold, and what list_pins adds to it. */
  datatype PinType = Direct | Recursive | Indirect

  type PinTable = map<string, PinType>

  datatype AddResult = Pinned | InvalidCid | InvalidType | AlreadyRecursive

  datatype RemoveResult = Removed | NotPinned

  datatype Op = Add(cid: string, pinType: PinType) | Remove(cid: string)

  function AddOutcome(w: World, pins: PinTable, s: string, t: PinType): AddResult {
    if w.parseText(s) == None then InvalidCid
    else if t == Indirect then InvalidType
    else if s in pins && pins[s] == Recursive && t == Direct then AlreadyRecursive
    else Pinned
  }

  /** The text parses, the type may be stored, and a recursive pin is not made direct. */
  predicate Accepts(w: World, pins: PinTable, s: string, t: PinType) {
    && w.parseText(s).Some?
    && (t == Direct || t == Recursive)
    && !(s in pins && pins[s] == Recursive && t == Direct)
  }

  /** The table after one call, whether or not it raised. */
  function Apply(w: World, pins: PinTable, op: Op): PinTable {
    match op
    case Add(s, t) => if AddOutcome(w, pins, s, t) == Pinned then pins[s := t] else pins
    case Remove(s) => pins - {s}
  }

  function Run(w: World, pins: PinTable, ops: seq<Op>): PinTable
    decreases |ops|
  {
    if ops == [] then pins else Run(w, Apply(w, pins, ops[0]), ops[1..])
  }

  class PinStore {
    var pins: PinTable

    constructor ()
      ensures pins == map[]
    {
      pins := map[];
    }

    method AddPin(w: World, cidStr: string, pinType: PinType) returns (r: AddResult)
      modifies this
      ensures r == AddOutcome(w, old(pins), cidStr, pinType)
      ensures pins == Apply(w, old(pins), Add(cidStr, pinType))
      ensures r == Pinned <==>
        && w.parseText(cidStr).Some? && (pinType == Direct || pinType == Recursive)
        && !(cidStr in old(pins) && old(pins)[cidStr] == Recursive && pinType == Direct)
      ensures pins == if r == Pinned then old(pins)[cidStr := pinType] else old(pins)
      ensures r == InvalidCid <==> w.parseText(cidStr) == None
      ensures r == InvalidType <==> w.parseText(cidStr).Some? && pinType == Indirect
    {
      if w.parseText(cidStr) == None {
        return InvalidCid;
      }
      if pinType == Indirect {
        return InvalidType;
      }
      if cidStr in pins {
        var existing := pins[cidStr];
        if existing == pinType {
          assert pins == pins[cidStr := pinType];
          return Pinned;
        }
        if existing == Recursive && pinType == Direct {
          return AlreadyRecursive;
        }
      }
      pins := pins[cidStr := pinType];
      return Pinned;
    }

    method RemovePin(w: World, cidStr: string) returns (r: RemoveResult)
      modifies this
      ensures r == if cidStr in old(pins) then Removed else NotPinned
      ensures pins == Apply(w, old(pins), Remove(cidStr))
      ensures pins == old(pins) - {cidStr}
    {
      if cidStr !in pins {
        assert pins == pins - {cidStr};
        return NotPinned;
      }
      pins := pins - {cidStr};
      return Removed;
    }

    method GetPins() returns (copy: PinTable)
      ensures copy == pins
    {
      copy := pins;
    }
  }

  lemma {:induction false} RunSnoc(w: World, pins: PinTable, ops: seq<Op>, op: Op)
    ensures Run(w, pins, ops + [op]) == Apply(w, Run(w, pins, ops), op)
    decreases |ops|
  {
    hide Apply;
    if ops == [] {
      assert [] + [op] == [op] && [op][1..] == [];
    } else {
      assert (ops + [op])[1..] == ops[1..] + [op];
      RunSnoc(w, Apply(w, pins, ops[0]), ops[1..], op);
    }
  }

  /** The i-th call pins s with type t and does not raise. */
  ghost predicate Sets(w: World, ops: seq<Op>, i: nat, s: string, t: PinType) {
    i < |ops| && ops[i] == Add(s, t) && Accepts(w, Run(w, map[], ops[..i]), s, t)
  }

  /** The i-th call pins s with type t, and no later one removes the pin or sets it anew. */
  ghost predicate SetsLast(w: World, ops: seq<Op>, i: nat, s: string, t: PinType) {
    Sets(w, ops, i, s, t) && forall j :: i < j < |ops| ==> ops[j] != Remove(s) && forall u :: !Sets(w, ops, j, s, u)
  }

  lemma SetsEarlier(w: World, ops: seq<Op>, op: Op, i: nat, s: string, t: PinType)
    requires i < |ops|
    ensures Sets(w, ops + [op], i, s, t) <==> Sets(w, ops, i, s, t)
  {
    assert (ops + [op])[..i] == ops[..i];
  }

  lemma SetsLastSnoc(w: World, ops: seq<Op>, op: Op, s: string, t: PinType)
    ensures
      var pins := Run(w, map[], ops);
      (exists i :: SetsLast(w, ops + [op], i, s, t))
      <==>
        || (op == Add(s, t) && Accepts(w, pins, s, t))
        || ((exists i :: SetsLast(w, ops, i, s, t)) && op != Remove(s)
            && forall u :: !(op == Add(s, u) && Accepts(w, pins, s, u)))
  {
    hide Accepts, Run;
    var longer, n := ops + [op], |ops|;
    assert longer[..n] == ops;
    forall i: nat, u | i < n
      ensures Sets(w, longer, i, s, u) <==> Sets(w, ops, i, s, u)
    {
      SetsEarlier(w, ops, op, i, s, u);
    }
    forall u
      ensures Sets(w, longer, n, s, u) <==> op == Add(s, u) && Accepts(w, Run(w, map[], ops), s, u)
    {
    }
    hide Sets;
    forall i: nat | i < n
      ensures SetsLast(w, longer, i, s, t) <==>
        SetsLast(w, ops, i, s, t) && op != Remove(s) && forall u :: !Sets(w, longer, n, s, u)
    {
      assert forall j: nat :: j < n ==> longer[j] == ops[j];
      assert longer[n] == op;
    }
    assert SetsLast(w, longer, n, s, t) <==> Sets(w, longer, n, s, t);
    assert forall i: nat :: i > n ==> !SetsLast(w, longer, i, s, t) by {
      SetsInRange(w, longer, s, t);
    }
    SetsInRange(w, ops, s, t);
  }

  lemma SetsInRange(w: World, ops: seq<Op>, s: string, t: PinType)
    ensures forall i: nat :: Sets(w, ops, i, s, t) ==> i < |ops|
  {
  }

  lemma ApplyMeans(w: World, pins: PinTable, op: Op, s: string, t: PinType)
    ensures
      var after := Apply(w, pins, op);
      s in after && after[s] == t <==>
      || (op == Add(s, t) && Accepts(w, pins, s, t))
      || (s in pins && pins[s] == t && op != Remove(s)
          && forall u :: !(op == Add(s, u) && Accepts(w, pins, s, u)))
  {
  }

  /**
   After any run of calls, the type of a pin is that of the last successful add of its text
   not followed by a remove.
   */
  lemma {:induction false} LastAddWins(w: World, ops: seq<Op>, s: string, t: PinType)
    ensures
      var pins := Run(w, map[], ops);
      s in pins && pins[s] == t <==> exists i :: SetsLast(w, ops, i, s, t)
    decreases |ops|
  {
    if ops == [] {
      SetsInRange(w, ops, s, t);
    } else {
      var earlier, op := ops[..|ops| - 1], ops[|ops| - 1];
      assert ops == earlier + [op];
      hide *;
      LastAddWins(w, earlier, s, t);
      RunSnoc(w, map[], earlier, op);
      SetsLastSnoc(w, earlier, op, s, t);
      ApplyMeans(w, Run(w, map[], earlier), op, s, t);
    }
  }

  /** Over any run, a recursive pin survives unless a call removed it. */
  lemma {:induction false} RecursiveUntilRemoved(w: World, pins: PinTable, ops: seq<Op>, s: string)
    requires s in pins && pins[s] == Recursive
    requires Remove(s) !in ops
    ensures s in Run(w, pins, ops) && Run(w, pins, ops)[s] == Recursive
    decreases |ops|
  {
    if ops != [] {
      assert ops[0] in ops;
      RecursiveUntilRemoved(w, Apply(w, pins, ops[0]), ops[1..], s);
    }
  }

  /** A recursive pin that a run leaves direct was removed and later pinned again directly. */
  lemma {:induction false} DowngradeNeedsRemove(w: World, pins: PinTable, ops: seq<Op>, s: string)
    requires s in pins && pins[s] == Recursive
    requires s in Run(w, pins, ops) && Run(w, pins, ops)[s] == Direct
    ensures exists i, j :: 0 <= i < j < |ops| && ops[i] == Remove(s) && ops[j] == Add(s, Direct)
    decreases |ops|
  {
    if Remove(s) !in ops {
      RecursiveUntilRemoved(w, pins, ops, s);
    } else if ops[0] == Remove(s) {
      var j := DirectNeedsAdd(w, Apply(w, pins, ops[0]), ops[1..], s);
      assert ops[0] == Remove(s) && ops[j + 1] == Add(s, Direct);
    } else {
      var after := Apply(w, pins, ops[0]);
      assert s in after && after[s] == Recursive;
      DowngradeNeedsRemove(w, after, ops[1..], s);
      var i, j :| 0 <= i < j < |ops[1..]| && ops[1..][i] == Remove(s) && ops[1..][j] == Add(s, Direct);
      assert ops[i + 1] == Remove(s) && ops[j + 1] == Add(s, Direct);
    }
  }

  lemma {:induction false} DirectNeedsAdd(w: World, pins: PinTable, ops: seq<Op>, s: string) returns (j: nat)
    requires s !in pins || pins[s] != Direct
    requires s in Run(w, pins, ops) && Run(w, pins, ops)[s] == Direct
    ensures j < |ops| && ops[j] == Add(s, Direct)
    decreases |ops|
  {
    if ops[0] == Add(s, Direct) {
      j := 0;
    } else {
      j := DirectNeedsAdd(w, Apply(w, pins, ops[0]), ops[1..], s);
      j := j + 1;
    }
  }
}
