/** Collection of the execution results of the reward window of epochs
    ending at the checkpoint, walking from the checkpoint towards genesis. */
module ReceiptCollection {
  import opened Wrappers
  import opened Chain

  /** The execution results, in the epoch `epoch`, of the epoch's ordered
      executable blocks, or `None` if any of them is missing. */
  function EpochResults(ctx: Context, blocks: seq<H256>, epoch: H256): Option<seq<BlockExecutionResult>>
  {
    if forall i :: 0 <= i < |blocks| ==> (blocks[i], epoch) in ctx.executionResults
    then Some(seq(|blocks|, i requires 0 <= i < |blocks| && (blocks[i], epoch) in ctx.executionResults =>
                ctx.executionResults[(blocks[i], epoch)]))
    else None
  }

  /** What a walk of at most `budget` epochs starting at `epochHash`
      collects: that epoch's results followed by those of the epochs below
      it, stopping after an epoch at height 0; any failed lookup gives
      `None`. */
  function ReceiptWalk(ctx: Context, epochHash: H256, budget: nat): Option<seq<BlockExecutionResult>>
    decreases budget
  {
    if budget == 0 then Some([])
    else if epochHash !in ctx.headers then None
    else
      var block := ctx.headers[epochHash];
      if block.height !in ctx.epochBlocks then None
      else
        match EpochResults(ctx, ctx.epochBlocks[block.height], epochHash)
        case None => None
        case Some(results) =>
          if block.height == 0 then Some(results)
          else
            match ReceiptWalk(ctx, block.parentHash, budget - 1)
            case None => None
            case Some(rest) => Some(results + rest)
  }

  /** Reference for the walk: the epochs whose header it looks up, in
      order. It goes on to the parent until `budget` epochs have been
      visited, a header is missing, or an epoch at height 0 was visited. */
  function Visited(ctx: Context, h: H256, budget: nat): seq<H256>
    decreases budget
  {
    if budget == 0 then []
    else if h !in ctx.headers || ctx.headers[h].height == 0 then [h]
    else [h] + Visited(ctx, ctx.headers[h].parentHash, budget - 1)
  }

  /** Every lookup for epoch `e` succeeds: its header, the ordered block
      list at its height and each block's execution result in `e`. */
  ghost predicate EpochAvailable(ctx: Context, e: H256)
  {
    && e in ctx.headers
    && ctx.headers[e].height in ctx.epochBlocks
    && EpochResults(ctx, ctx.epochBlocks[ctx.headers[e].height], e).Some?
  }

  /** The results of the given epochs, concatenated in order. */
  ghost function Collected(ctx: Context, epochs: seq<H256>): seq<BlockExecutionResult>
    requires forall e :: e in epochs ==> EpochAvailable(ctx, e)
  {
    if |epochs| == 0 then []
    else
      assert EpochAvailable(ctx, epochs[0]);
      EpochResults(ctx, ctx.epochBlocks[ctx.headers[epochs[0]].height], epochs[0]).value
      + Collected(ctx, epochs[1..])
  }

  /** The visited epochs are the first ancestors of the starting epoch; there
      is at least one and at most `budget` of them; every one but the last
      has a header at a non-zero height; and the walk stops early only at a
      missing header or at height 0. */
  lemma {:induction false} VisitedIsBoundedAncestry(ctx: Context, h: H256, budget: nat)
    ensures |Visited(ctx, h, budget)| <= budget
    ensures budget >= 1 ==> |Visited(ctx, h, budget)| >= 1
    ensures forall j :: 0 <= j < |Visited(ctx, h, budget)| ==> Ancestor(ctx, h, j) == Some(Visited(ctx, h, budget)[j])
    ensures forall j :: 0 <= j < |Visited(ctx, h, budget)| - 1 ==>
      Visited(ctx, h, budget)[j] in ctx.headers && ctx.headers[Visited(ctx, h, budget)[j]].height != 0
    ensures 1 <= |Visited(ctx, h, budget)| < budget ==>
      var last := Visited(ctx, h, budget)[|Visited(ctx, h, budget)| - 1];
      last !in ctx.headers || ctx.headers[last].height == 0
    decreases budget
  {
    if budget == 0 || h !in ctx.headers || ctx.headers[h].height == 0 {
      assert Ancestor(ctx, h, 0) == Some(h);
    } else {
      var p := ctx.headers[h].parentHash;
      VisitedIsBoundedAncestry(ctx, p, budget - 1);
      var v := Visited(ctx, h, budget);
      assert v == [h] + Visited(ctx, p, budget - 1);
      forall j | 0 <= j < |v|
        ensures Ancestor(ctx, h, j) == Some(v[j])
      {
        if j > 0 {
          assert Ancestor(ctx, h, j) == Ancestor(ctx, p, j - 1);
        }
      }
    }
  }

  /** The walk succeeds exactly when every visited epoch is available, and
      then it returns their results newest epoch first, each epoch's blocks
      in their resolved order. */
  lemma {:induction false} ReceiptWalkIsCollected(ctx: Context, h: H256, budget: nat)
    ensures ReceiptWalk(ctx, h, budget).Some? <==> forall e :: e in Visited(ctx, h, budget) ==> EpochAvailable(ctx, e)
    ensures ReceiptWalk(ctx, h, budget).Some? ==>
      ReceiptWalk(ctx, h, budget).value == Collected(ctx, Visited(ctx, h, budget))
    decreases budget
  {
    var v := Visited(ctx, h, budget);
    if budget == 0 {
    } else if h !in ctx.headers || ctx.headers[h].height == 0 {
      assert v == [h] && v[0] == h;
      assert ReceiptWalk(ctx, h, budget).Some? <==> EpochAvailable(ctx, h);
      if EpochAvailable(ctx, h) {
        assert v[1..] == [];
        var results := EpochResults(ctx, ctx.epochBlocks[ctx.headers[h].height], h).value;
        assert Collected(ctx, v) == results + Collected(ctx, []) == results;
      }

    } else {
      var p := ctx.headers[h].parentHash;
      ReceiptWalkIsCollected(ctx, p, budget - 1);
      assert v == [h] + Visited(ctx, p, budget - 1);
      assert v[1..] == Visited(ctx, p, budget - 1);
      assert forall e :: e in v <==> e == h || e in Visited(ctx, p, budget - 1);
      assert ReceiptWalk(ctx, h, budget).Some? <==> EpochAvailable(ctx, h) && ReceiptWalk(ctx, p, budget - 1).Some?;
    }
  }

  /** The inner loop of `get_block_receipts`: the execution result of each
      of the epoch's ordered blocks in turn, abandoning the epoch (and with
      it the whole collection) at the first one missing. */
  method CollectEpochResults(ctx: Context, orderedExecutableEpochBlocks: seq<H256>, epochHash: H256)
    returns (r: Option<seq<BlockExecutionResult>>)
    ensures r == EpochResults(ctx, orderedExecutableEpochBlocks, epochHash)
  {
    var results: seq<BlockExecutionResult> := [];
    for k := 0 to |orderedExecutableEpochBlocks|
      invariant |results| == k
      invariant forall j :: 0 <= j < k ==>
        && (orderedExecutableEpochBlocks[j], epochHash) in ctx.executionResults
        && results[j] == ctx.executionResults[(orderedExecutableEpochBlocks[j], epochHash)]
    {
      var key := (orderedExecutableEpochBlocks[k], epochHash);
      if key in ctx.executionResults {
        results := results + [ctx.executionResults[key]];
      } else {
        return None;
      }
    }
    var blocks := orderedExecutableEpochBlocks;
    assert forall i :: 0 <= i < |blocks| ==> (blocks[i], epochHash) in ctx.executionResults;
    assert results == seq(|blocks|, i requires 0 <= i < |blocks| && (blocks[i], epochHash) in ctx.executionResults =>
                            ctx.executionResults[(blocks[i], epochHash)]);
    return Some(results);
  }

  /** `get_block_receipts`: for at most `REWARD_EPOCH_COUNT` epochs, starting
      at the checkpoint, appends the execution results of the epoch's
      ordered executable blocks, stops after the genesis epoch and otherwise
      moves to the parent; any failed lookup abandons the whole collection. */
  method GetBlockReceipts(ctx: Context, checkpoint: H256) returns (r: Option<seq<BlockExecutionResult>>)
    ensures r == ReceiptWalk(ctx, checkpoint, REWARD_EPOCH_COUNT)
  {
    var epochReceipts: seq<BlockExecutionResult> := [];
    var epochHash := checkpoint;
    assert ReceiptWalk(ctx, checkpoint, REWARD_EPOCH_COUNT).Some? ==>
      epochReceipts + ReceiptWalk(ctx, checkpoint, REWARD_EPOCH_COUNT).value
        == ReceiptWalk(ctx, checkpoint, REWARD_EPOCH_COUNT).value;
    for i := 0 to REWARD_EPOCH_COUNT
      invariant ReceiptWalk(ctx, checkpoint, REWARD_EPOCH_COUNT) ==
        match ReceiptWalk(ctx, epochHash, REWARD_EPOCH_COUNT - i)
        case None => None
        case Some(rest) => Some(epochReceipts + rest)
    {
      if epochHash !in ctx.headers {
        return None;
      }
      var block := ctx.headers[epochHash];
      if block.height !in ctx.epochBlocks {
        return None;
      }
      var results := CollectEpochResults(ctx, ctx.epochBlocks[block.height], epochHash);
      if results.None? {
        return None;
      }
      ghost var before := epochReceipts;
      epochReceipts := epochReceipts + results.value;
      if block.height == 0 {
        // the original genesis has been reached
        break;
      }
      ghost var rest := ReceiptWalk(ctx, block.parentHash, REWARD_EPOCH_COUNT - i - 1);
      assert rest.Some? ==> before + (results.value + rest.value) == epochReceipts + rest.value;
      epochHash := block.parentHash;
    }
    assert epochReceipts + [] == epochReceipts;
    return Some(epochReceipts);
  }
}
