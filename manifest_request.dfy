/** The snapshot-manifest request: its fields and constructors, the
    retryable-request metadata it supplies to the request manager, and the
    server-side handler that assembles the response. */
module ManifestRequest {
  import opened Wrappers
  import opened Chain
  import opened BlameReconstruction
  import opened ReceiptCollection

  /** Opaque cursor into a multi-part manifest transfer. */
  type ChunkKey = seq<bv8>

  /** A (possibly partial) chunk layout of the checkpoint's state: its chunk
      boundaries and the cursor of the next part, if any. */
  datatype RangedManifest = RangedManifest(chunkBoundaries: seq<ChunkKey>, nextChunk: Option<ChunkKey>)

  /** `RangedManifest::default()`: no chunks, nothing more to fetch. */
  function DefaultManifest(): RangedManifest
  {
    RangedManifest([], None)
  }

  /** The capability a peer must advertise to be sent this request. */
  datatype DynamicCapability = ServeCheckpoint(checkpoint: Option<H256>)

  /** The protocol timeouts, in milliseconds. */
  datatype ProtocolConfiguration = ProtocolConfiguration(headersRequestTimeout: nat)

  /** The request manager's in-flight keys. */
  type KeyContainer = set<seq<bv8>>

  datatype SnapshotManifestRequest = SnapshotManifestRequest(
    requestId: u64,
    checkpoint: H256,
    startChunk: Option<ChunkKey>,
    trustedBlameBlock: Option<H256>)
  {
    /** `resend`: the request again, as a clone of this one. */
    function Resend(): (r: Option<SnapshotManifestRequest>)
      ensures r.Some?
      ensures r.value.requestId == requestId && r.value.checkpoint == checkpoint
      ensures r.value.startChunk == startChunk && r.value.trustedBlameBlock == trustedBlameBlock
    {
      Some(this)
    }

    /** `is_empty`: this request always needs a round trip. */
    function IsEmpty(): (r: bool)
      ensures !r
    {
      false
    }

    /** `required_capability`: only peers serving this very checkpoint. */
    function RequiredCapability(): (c: Option<DynamicCapability>)
      ensures c.Some? && c.value.checkpoint == Some(checkpoint)
    {
      Some(ServeCheckpoint(Some(checkpoint)))
    }

    /** `timeout`: the configured headers-request timeout. */
    function Timeout(conf: ProtocolConfiguration): (d: nat)
      ensures d == conf.headersRequestTimeout
    {
      conf.headersRequestTimeout
    }

    /** `on_removed`: leaves the in-flight keys as they are. */
    function OnRemoved(inflightKeys: KeyContainer): (k: KeyContainer)
      ensures k == inflightKeys
    {
      inflightKeys
    }

    /** `with_inflight`: leaves the request as it is. */
    function WithInflight(inflightKeys: KeyContainer): (r: SnapshotManifestRequest)
      ensures r == this
    {
      this
    }
  }

  /** `new`: a request for the manifest and the blame vectors anchored at
      `trustedBlameBlock`. */
  function New(checkpoint: H256, trustedBlameBlock: H256): (r: SnapshotManifestRequest)
    ensures r.requestId == 0 && r.checkpoint == checkpoint
    ensures r.startChunk.None? && r.trustedBlameBlock == Some(trustedBlameBlock)
  {
    SnapshotManifestRequest(0, checkpoint, None, Some(trustedBlameBlock))
  }

  /** `new_with_start_chunk`: a request for the rest of a manifest from
      `startChunk` on; it names no trusted block, so it is never answered with
      blame vectors. */
  function NewWithStartChunk(checkpoint: H256, startChunk: ChunkKey): (r: SnapshotManifestRequest)
    ensures r.requestId == 0 && r.checkpoint == checkpoint
    ensures r.startChunk == Some(startChunk) && r.trustedBlameBlock.None?
    ensures forall ctx :: BlameStates(ctx, r.checkpoint, r.trustedBlameBlock).None?
  {
    SnapshotManifestRequest(0, checkpoint, Some(startChunk), None)
  }

  datatype SnapshotManifestResponse = SnapshotManifestResponse(
    requestId: u64,
    checkpoint: H256,
    manifest: RangedManifest,
    stateBlameVec: seq<H256>,
    receiptBlameVec: seq<H256>,
    bloomBlameVec: seq<H256>,
    blockReceipts: seq<BlockExecutionResult>)

  /** `handle`: the response to `req`, given what loading the manifest for
      `(req.checkpoint, req.startChunk)` gave. A failed or empty load yields
      the default manifest, and a failed walk yields empty vectors; the
      response is always produced and echoes the request's id and
      checkpoint. */
  method Handle(req: SnapshotManifestRequest, ctx: Context, loaded: Result<Option<RangedManifest>>)
    returns (resp: SnapshotManifestResponse)
    ensures resp.requestId == req.requestId && resp.checkpoint == req.checkpoint
    ensures resp.manifest == if loaded.Ok? && loaded.value.Some? then loaded.value.value else DefaultManifest()
    ensures BlameStates(ctx, req.checkpoint, req.trustedBlameBlock).Some? ==>
      BlameStates(ctx, req.checkpoint, req.trustedBlameBlock).value
        == BlameVectors(resp.stateBlameVec, resp.receiptBlameVec, resp.bloomBlameVec)
    ensures resp.stateBlameVec == [] <==> BlameStates(ctx, req.checkpoint, req.trustedBlameBlock).None?
    ensures resp.stateBlameVec == [] ==> resp.receiptBlameVec == [] && resp.bloomBlameVec == []
    ensures resp.stateBlameVec != [] ==>
      && req.trustedBlameBlock.Some? && req.trustedBlameBlock.value in ctx.headers && req.checkpoint in ctx.headers
      && ctx.headers[req.checkpoint].height <= ctx.headers[req.trustedBlameBlock.value].height
      && var trusted := ctx.headers[req.trustedBlameBlock.value];
         var n := LoopCount(trusted.height, ctx.headers[req.checkpoint].height, trusted.blame);
         |resp.stateBlameVec| == n && |resp.receiptBlameVec| == n && |resp.bloomBlameVec| == n
    ensures resp.blockReceipts == ReceiptWalk(ctx, req.checkpoint, REWARD_EPOCH_COUNT).UnwrapOr([])
  {
    var manifest := match loaded
      case Ok(Some(m)) => m
      case _ => DefaultManifest();
    var blame := GetBlameStates(ctx, req.checkpoint, req.trustedBlameBlock);
    var vectors := blame.UnwrapOr(BlameVectors([], [], []));
    if blame.Some? {
      BlameStatesContents(ctx, req.checkpoint, req.trustedBlameBlock);
    }
    var receipts := GetBlockReceipts(ctx, req.checkpoint);
    var blockReceipts := receipts.UnwrapOr([]);
    resp := SnapshotManifestResponse(
      req.requestId,
      req.checkpoint,
      manifest,
      vectors.stateBlameVec,
      vectors.receiptBlameVec,
      vectors.bloomBlameVec,
      blockReceipts);
  }
}
