/** Reconstruction of the blame vectors: the deferred state, receipt and
    bloom commitments of the trusted block and of as many of its ancestors
    as are needed to cover both the checkpoint's reward window and the
    trusted block's own blame span. */
module BlameReconstruction {
  import opened Wrappers
  import opened Chain

  /** The three parallel vectors of a response, index-aligned: entry `i` of
      each comes from the same block. */
  datatype BlameVectors = BlameVectors(
    stateBlameVec: seq<H256>,
    receiptBlameVec: seq<H256>,
    bloomBlameVec: seq<H256>)

  /** Number of blocks the walk must cover (`loop_cnt`): the distance from
      the checkpoint up to the trusted block plus the reward window (just
      the checkpoint itself at genesis), raised to the trusted block's blame
      span when that is longer. */
  function LoopCount(trustedHeight: u64, checkpointHeight: u64, trustedBlame: u32): (n: nat)
    requires checkpointHeight <= trustedHeight
    ensures n >= 1
    ensures n >= trustedBlame + 1
    ensures n >= trustedHeight - checkpointHeight + (if checkpointHeight == 0 then 1 else REWARD_EPOCH_COUNT)
    ensures n == trustedBlame + 1
         || n == trustedHeight - checkpointHeight + (if checkpointHeight == 0 then 1 else REWARD_EPOCH_COUNT)
  {
    var window := if checkpointHeight == 0 then 1 else REWARD_EPOCH_COUNT;
    var span := trustedHeight - checkpointHeight + window;
    if span < trustedBlame + 1 then trustedBlame + 1 else span
  }

  /** The execution info of the first `n` blocks walked back from `h`, or
      `None` if one of them has none or a header needed to reach the next
      one is missing. The header of the `n`-th block is not consulted. */
  function BlameWalk(ctx: Context, h: H256, n: nat): Option<seq<ExecutionInfo>>
    requires n >= 1
    decreases n
  {
    if h !in ctx.executionInfo then None
    else if n == 1 then Some([ctx.executionInfo[h]])
    else if h !in ctx.headers then None
    else match BlameWalk(ctx, ctx.headers[h].parentHash, n - 1)
      case None => None
      case Some(rest) => Some([ctx.executionInfo[h]] + rest)
  }

  /** Splits a walk into the three commitment vectors. */
  function Split(infos: seq<ExecutionInfo>): BlameVectors
  {
    BlameVectors(
      seq(|infos|, i requires 0 <= i < |infos| => infos[i].originalDeferredStateRoot),
      seq(|infos|, i requires 0 <= i < |infos| => infos[i].originalDeferredReceiptRoot),
      seq(|infos|, i requires 0 <= i < |infos| => infos[i].originalDeferredLogsBloomHash))
  }

  /** Extending a walk by one block extends each of the three vectors by
      that block's commitment. */
  lemma SplitSnoc(infos: seq<ExecutionInfo>, x: ExecutionInfo)
    ensures Split(infos + [x]) == BlameVectors(
      Split(infos).stateBlameVec + [x.originalDeferredStateRoot],
      Split(infos).receiptBlameVec + [x.originalDeferredReceiptRoot],
      Split(infos).bloomBlameVec + [x.originalDeferredLogsBloomHash])
  {
  }

  /** A walk continued after the blocks already walked. */
  function Prepend(walked: seq<ExecutionInfo>, rest: Option<seq<ExecutionInfo>>): Option<seq<ExecutionInfo>>
  {
    match rest
    case None => None
    case Some(r) => Some(walked + r)
  }

  lemma PrependNothing(walk: Option<seq<ExecutionInfo>>)
    ensures Prepend([], walk) == walk
  {
    if walk.Some? {
      assert [] + walk.value == walk.value;
    }
  }

  /** One step of the walk: a block with execution info and a header,
      walked with at least one more block to go, moves to its parent. */
  lemma BlameWalkStep(ctx: Context, h: H256, n: nat, walked: seq<ExecutionInfo>)
    requires n >= 2 && h in ctx.executionInfo && h in ctx.headers
    ensures Prepend(walked, BlameWalk(ctx, h, n))
         == Prepend(walked + [ctx.executionInfo[h]], BlameWalk(ctx, ctx.headers[h].parentHash, n - 1))
  {
    var rest := BlameWalk(ctx, ctx.headers[h].parentHash, n - 1);
    if rest.Some? {
      assert walked + ([ctx.executionInfo[h]] + rest.value) == (walked + [ctx.executionInfo[h]]) + rest.value;
    }
  }

  /** What `get_blame_states` returns for a request with this checkpoint and
      trusted block. */
  function BlameStates(ctx: Context, checkpoint: H256, trustedBlameBlock: Option<H256>): Option<BlameVectors>
  {
    if trustedBlameBlock.None? || trustedBlameBlock.value !in ctx.headers || checkpoint !in ctx.headers then None
    else
      var trusted := ctx.headers[trustedBlameBlock.value];
      var checkpointBlock := ctx.headers[checkpoint];
      if trusted.height < checkpointBlock.height then None
      else
        match BlameWalk(ctx, trustedBlameBlock.value, LoopCount(trusted.height, checkpointBlock.height, trusted.blame))
        case None => None
        case Some(infos) => Some(Split(infos))
  }

  /** Reference for the walk: each of the first `n` parent-link ancestors of
      `h` can be reached and has execution info. */
  ghost predicate WalkComplete(ctx: Context, h: H256, n: nat)
  {
    forall i :: 0 <= i < n ==> Ancestor(ctx, h, i).Some? && Ancestor(ctx, h, i).value in ctx.executionInfo
  }

  /** The walk succeeds exactly when the first `n` ancestors are all there,
      and then entry `i` is the execution info of the `i`-th ancestor. */
  lemma {:induction false} BlameWalkIsAncestors(ctx: Context, h: H256, n: nat)
    requires n >= 1
    ensures BlameWalk(ctx, h, n).Some? <==> WalkComplete(ctx, h, n)
    ensures BlameWalk(ctx, h, n).Some? ==>
      |BlameWalk(ctx, h, n).value| == n &&
      forall i :: 0 <= i < n ==> BlameWalk(ctx, h, n).value[i] == ctx.executionInfo[Ancestor(ctx, h, i).value]
    decreases n
  {
    if h !in ctx.executionInfo {
      assert Ancestor(ctx, h, 0) == Some(h);
    } else if n == 1 {
      assert Ancestor(ctx, h, 0) == Some(h);
    } else if h !in ctx.headers {
      assert Ancestor(ctx, h, 1).None?;
    } else {
      var p := ctx.headers[h].parentHash;
      BlameWalkIsAncestors(ctx, p, n - 1);
      forall i | 1 <= i < n
        ensures Ancestor(ctx, h, i) == Ancestor(ctx, p, i - 1)
      {
      }
      if WalkComplete(ctx, p, n - 1) {
        assert WalkComplete(ctx, h, n);
      } else {
        var i :| 0 <= i < n - 1 && !(Ancestor(ctx, p, i).Some? && Ancestor(ctx, p, i).value in ctx.executionInfo);
        assert Ancestor(ctx, h, i + 1) == Ancestor(ctx, p, i);
      }
    }
  }

  /** `get_blame_states` answers exactly when the request names a trusted
      block, both headers are known, the trusted block is not below the
      checkpoint, and all `LoopCount` blocks of the walk have their
      execution info and the headers linking them. */
  lemma BlameStatesSucceeds(ctx: Context, checkpoint: H256, trustedBlameBlock: Option<H256>)
    ensures BlameStates(ctx, checkpoint, trustedBlameBlock).Some? <==>
      && trustedBlameBlock.Some?
      && trustedBlameBlock.value in ctx.headers
      && checkpoint in ctx.headers
      && ctx.headers[checkpoint].height <= ctx.headers[trustedBlameBlock.value].height
      && WalkComplete(ctx, trustedBlameBlock.value,
           LoopCount(ctx.headers[trustedBlameBlock.value].height, ctx.headers[checkpoint].height,
                     ctx.headers[trustedBlameBlock.value].blame))
  {
    if && trustedBlameBlock.Some? && trustedBlameBlock.value in ctx.headers && checkpoint in ctx.headers
       && ctx.headers[checkpoint].height <= ctx.headers[trustedBlameBlock.value].height
    {
      var trusted := ctx.headers[trustedBlameBlock.value];
      BlameWalkIsAncestors(ctx, trustedBlameBlock.value,
        LoopCount(trusted.height, ctx.headers[checkpoint].height, trusted.blame));
    }
  }

  /** A successful answer has exactly `LoopCount` entries in each vector,
      and entry `i` of each is the matching commitment of the `i`-th ancestor
      of the trusted block (entry 0 being the trusted block itself). */
  lemma BlameStatesContents(ctx: Context, checkpoint: H256, trustedBlameBlock: Option<H256>)
    requires BlameStates(ctx, checkpoint, trustedBlameBlock).Some?
    ensures trustedBlameBlock.Some? && trustedBlameBlock.value in ctx.headers && checkpoint in ctx.headers
    ensures ctx.headers[checkpoint].height <= ctx.headers[trustedBlameBlock.value].height
    ensures
      var v := BlameStates(ctx, checkpoint, trustedBlameBlock).value;
      var trusted := ctx.headers[trustedBlameBlock.value];
      var n := LoopCount(trusted.height, ctx.headers[checkpoint].height, trusted.blame);
      && |v.stateBlameVec| == n && |v.receiptBlameVec| == n && |v.bloomBlameVec| == n
      && forall i :: 0 <= i < n ==>
           && Ancestor(ctx, trustedBlameBlock.value, i).Some?
           && Ancestor(ctx, trustedBlameBlock.value, i).value in ctx.executionInfo
           && var info := ctx.executionInfo[Ancestor(ctx, trustedBlameBlock.value, i).value];
              && v.stateBlameVec[i] == info.originalDeferredStateRoot
              && v.receiptBlameVec[i] == info.originalDeferredReceiptRoot
              && v.bloomBlameVec[i] == info.originalDeferredLogsBloomHash
  {
    var trusted := ctx.headers[trustedBlameBlock.value];
    BlameWalkIsAncestors(ctx, trustedBlameBlock.value,
      LoopCount(trusted.height, ctx.headers[checkpoint].height, trusted.blame));
  }

  /** A request anchored at the genesis checkpoint itself (height 0, blame
      0) is answered with one entry: genesis's own commitments. */
  lemma GenesisAnchor(ctx: Context, genesis: H256)
    requires genesis in ctx.headers && ctx.headers[genesis].height == 0 && ctx.headers[genesis].blame == 0
    requires genesis in ctx.executionInfo
    ensures
      var info := ctx.executionInfo[genesis];
      BlameStates(ctx, genesis, Some(genesis)) == Some(BlameVectors(
        [info.originalDeferredStateRoot], [info.originalDeferredReceiptRoot], [info.originalDeferredLogsBloomHash]))
  {
    var info := ctx.executionInfo[genesis];
    assert LoopCount(0, 0, 0) == 1;
    assert Split([info]) == BlameVectors(
      [info.originalDeferredStateRoot], [info.originalDeferredReceiptRoot], [info.originalDeferredLogsBloomHash]);
  }

  /** `get_blame_states`: resolves the trusted and checkpoint headers, fixes
      the target length, then walks parent links from the trusted block,
      pushing each block's three commitments until the target length is
      reached; any missing lookup abandons the whole walk. */
  method GetBlameStates(ctx: Context, checkpoint: H256, trustedBlameBlock: Option<H256>)
    returns (r: Option<BlameVectors>)
    ensures r == BlameStates(ctx, checkpoint, trustedBlameBlock)
  {
    if trustedBlameBlock.None? || trustedBlameBlock.value !in ctx.headers {
      return None;
    }
    var trustedHash := trustedBlameBlock.value;
    var trusted := ctx.headers[trustedHash];
    if checkpoint !in ctx.headers {
      return None;
    }
    var checkpointBlock := ctx.headers[checkpoint];
    if trusted.height < checkpointBlock.height {
      return None;
    }
    var loopCnt: nat;
    if checkpointBlock.height == 0 {
      loopCnt := trusted.height - checkpointBlock.height + 1;
    } else {
      loopCnt := trusted.height - checkpointBlock.height + REWARD_EPOCH_COUNT;
    }
    if loopCnt < trusted.blame + 1 {
      loopCnt := trusted.blame + 1;
    }
    assert loopCnt == LoopCount(trusted.height, checkpointBlock.height, trusted.blame);

    var stateBlameVec, receiptBlameVec, bloomBlameVec := [], [], [];
    var blockHash := trustedHash;
    ghost var walked: seq<ExecutionInfo> := [];
    assert Split(walked) == BlameVectors([], [], []);
    PrependNothing(BlameWalk(ctx, trustedHash, loopCnt));
    while true
      invariant |walked| == |stateBlameVec| == |receiptBlameVec| == |bloomBlameVec| < loopCnt
      invariant Split(walked) == BlameVectors(stateBlameVec, receiptBlameVec, bloomBlameVec)
      invariant BlameWalk(ctx, trustedHash, loopCnt) == Prepend(walked, BlameWalk(ctx, blockHash, loopCnt - |walked|))
      decreases loopCnt - |walked|
    {
      if blockHash in ctx.executionInfo {
        var execInfo := ctx.executionInfo[blockHash];
        ghost var before := walked;
        stateBlameVec := stateBlameVec + [execInfo.originalDeferredStateRoot];
        receiptBlameVec := receiptBlameVec + [execInfo.originalDeferredReceiptRoot];
        bloomBlameVec := bloomBlameVec + [execInfo.originalDeferredLogsBloomHash];
        SplitSnoc(walked, execInfo);
        walked := walked + [execInfo];
        if |stateBlameVec| == loopCnt {
          return Some(BlameVectors(stateBlameVec, receiptBlameVec, bloomBlameVec));
        }
        if blockHash in ctx.headers {
          BlameWalkStep(ctx, blockHash, loopCnt - |before|, before);
          blockHash := ctx.headers[blockHash].parentHash;
        } else {
          return None;
        }
      } else {
        return None;
      }
    }
  }
}
