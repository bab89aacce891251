/** The read-only view of the block store and consensus graph that the
    snapshot-manifest request handler queries through its `Context`. */
module Chain {
  import opened Wrappers

  /** Rust's `u64` and `u32`. */
  type u64 = x: nat | x < 0x1_0000_0000_0000_0000
  type u32 = x: nat | x < 0x1_0000_0000

  /** A 256-bit hash (`H256`), kept as its numeric value. */
  type H256 = x: nat | x < 0x1_0000_0000_0000_0000_0000_0000_0000_0000_0000_0000_0000_0000_0000_0000_0000_0000_0000_0000

  /** Number of epochs in the reward window (`consensus_internal::REWARD_EPOCH_COUNT`). */
  const REWARD_EPOCH_COUNT: u64 := 12

  /** The fields of a block header the handler reads. The header's own hash
      is not a field: the model takes it to be the hash it is stored under. */
  datatype BlockHeader = BlockHeader(height: u64, parentHash: H256, blame: u32)

  /** The deferred commitments persisted for a block
      (`ConsensusGraphExecutionInfo`). */
  datatype ExecutionInfo = ExecutionInfo(
    originalDeferredStateRoot: H256,
    originalDeferredReceiptRoot: H256,
    originalDeferredLogsBloomHash: H256)

  /** A block's execution result in a given epoch: its receipts and bloom,
      each held as encoded bytes. */
  datatype BlockExecutionResult = BlockExecutionResult(blockReceipts: seq<seq<bv8>>, bloom: seq<bv8>)

  /** The lookups the handler makes, as immutable maps; a key that is absent
      is a lookup that fails.
      - `headers`: `block_header_by_hash`
      - `executionInfo`: `consensus_graph_execution_info_from_db`
      - `epochBlocks`: `block_hashes_by_epoch` (an absent height is its `Err`)
      - `executionResults`: `block_execution_result_by_hash_with_epoch`,
        keyed by (block hash, epoch hash) */
  datatype Context = Context(
    headers: map<H256, BlockHeader>,
    executionInfo: map<H256, ExecutionInfo>,
    epochBlocks: map<u64, seq<H256>>,
    executionResults: map<(H256, H256), BlockExecutionResult>)

  /** The `i`-th ancestor of `h` along parent links (`i == 0` is `h` itself),
      or `None` when the header of one of the first `i` blocks is missing. */
  function Ancestor(ctx: Context, h: H256, i: nat): Option<H256>
    decreases i
  {
    if i == 0 then Some(h)
    else if h in ctx.headers then Ancestor(ctx, ctx.headers[h].parentHash, i - 1)
    else None
  }
}
