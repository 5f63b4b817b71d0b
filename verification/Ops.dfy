/** Operations and the stateful stamping of them (src/client/ops.ts, src/core/types.ts). */
module Ops {
  import opened Hlc
  import opened Options

  /** What a column can hold; `Other` stands for every value this model never looks into. */
  datatype Value = Str(s: string) | Flag(b: bool) | Seen(entries: seq<(string, int)>) | Other(n: int)

  datatype OpType = Insert | Update | Delete

  datatype ClientOp = ClientOp(
    id: string, table: string, op: OpType, rowId: string, payload: Option<map<string, Value>>,
    hlc: string, batchId: Option<string>, batchSize: Option<nat>, batchSeq: Option<nat>)

  /** One operation of a batch, before it is stamped; `id` is the fresh identifier it will get. */
  datatype Spec = Spec(id: string, table: string, op: OpType, rowId: string, payload: Option<map<string, Value>>)

  class OpCreator {
    var hlc: HLC

    constructor (nodeId: string, initial: Option<HLC>)
      ensures hlc == if initial.Some? then initial.value else HLC(0, 0, nodeId)
    {
      hlc := if initial.Some? then initial.value else HLC(0, 0, nodeId);
    }

    method NextOp(spec: Spec, wall: int) returns (op: ClientOp)
      requires 0 <= hlc.ms && 0 <= hlc.counter
      modifies this
      ensures hlc == SendHlc(old(hlc), wall)
      ensures 0 <= hlc.ms && 0 <= hlc.counter
      ensures op == ClientOp(spec.id, spec.table, spec.op, spec.rowId, spec.payload, PackHlc(hlc), None, None, None)
    {
      hlc := SendHlc(hlc, wall);
      op := ClientOp(spec.id, spec.table, spec.op, spec.rowId, spec.payload, PackHlc(hlc), None, None, None);
    }

    /** Stamp the specs in order, at the wall readings given. */
    method CreateBatch(batchId: string, specs: seq<Spec>, walls: seq<int>) returns (ops: seq<ClientOp>)
      requires 0 <= hlc.ms && 0 <= hlc.counter && |walls| == |specs|
      modifies this
      ensures hlc == Sends(old(hlc), walls)
      ensures |ops| == |specs|
      ensures forall i :: 0 <= i < |ops| ==> IsStamped(ops[i], specs[i], batchId, |specs|, old(hlc), walls, i)
    {
      ghost var start := hlc;
      ops := [];
      for i := 0 to |specs|
        invariant |ops| == i && 0 <= hlc.ms && 0 <= hlc.counter
        invariant hlc == Sends(start, walls[..i])
        invariant forall k :: 0 <= k < i ==> IsStamped(ops[k], specs[k], batchId, |specs|, start, walls, k)
      {
        assert walls[..i + 1][..i] == walls[..i];
        assert Sends(start, walls[..i + 1]) == SendHlc(hlc, walls[i]);
        var op := NextOp(specs[i], walls[i]);
        op := op.(batchId := Some(batchId), batchSize := Some(|specs|), batchSeq := Some(i));
        assert IsStamped(op, specs[i], batchId, |specs|, start, walls, i);
        ops := ops + [op];
      }
      assert walls[..|specs|] == walls;
    }
  }

  /** What the spec asked for, in this place of this batch, stamped by the clock after `k + 1` sends. */
  predicate IsStamped(op: ClientOp, spec: Spec, batchId: string, size: nat, start: HLC, walls: seq<int>, k: nat)
    requires k < |walls|
  {
    var h := Sends(start, walls[..k + 1]);
    && 0 <= h.ms && 0 <= h.counter
    && op == ClientOp(spec.id, spec.table, spec.op, spec.rowId, spec.payload, PackHlc(h), Some(batchId), Some(size), Some(k))
  }

  /** The clock after stamping once per wall reading. */
  function Sends(h: HLC, walls: seq<int>): HLC
  {
    if walls == [] then h else SendHlc(Sends(h, walls[..|walls| - 1]), walls[|walls| - 1])
  }
}
