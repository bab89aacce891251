# Snapshot-manifest request (Conflux checkpoint sync), modelled in Dafny

This project models the server side of the snapshot-manifest request of the
Conflux full node's checkpoint sync. A peer names a checkpoint and either a
trusted block or a chunk cursor. The serving node's response carries:

- the request id and the checkpoint, echoed from the request;
- the checkpoint's state manifest;
- three index-aligned "blame vectors" of deferred state, receipt and bloom
  commitments, walked back along parent links from the trusted block;
- the execution results of the reward window of epochs ending at the checkpoint.

Every lookup the handler makes goes to the block store or the consensus graph,
and the handler only reads them. They are modelled as the immutable maps of
`Chain.Context`: headers, execution info, the ordered executable blocks of each
epoch height, and execution results keyed by (block, epoch).

Files:

- `wrappers.dfy`: `Option` and `Result`.
- `chain.dfy`: the integer and hash types, headers, the `Context` maps,
  `REWARD_EPOCH_COUNT` (12), and `Ancestor`, the parent-link walk that serves
  as the reference for both walks.
- `blame_reconstruction.dfy`: `get_blame_states`.
  - `LoopCount` is the target length.
  - `BlameWalk` and `BlameStates` are the specification.
  - `GetBlameStates` is the imperative walk, proved equal to `BlameStates`.
  - Lemmas characterise `BlameStates` through `Ancestor`.
- `receipt_collection.dfy`: `get_block_receipts`.
  - `EpochResults` and `ReceiptWalk` are the specification.
  - `CollectEpochResults` and `GetBlockReceipts` are the two nested loops,
    proved equal to them.
  - `Visited` and `Collected` are an independent description: which epochs
    the walk visits, and what it gathers from them.
- `manifest_request.dfy`: the request datatype, its constructors, the
  `Request` metadata, the response, and `Handle`.

Behaviour worth knowing:

- The trusted block's `blame` is read from its header, not from its execution
  record.
- A request may carry both a start chunk and a trusted block. The handler then
  does both: it loads the manifest from the start chunk and builds the blame
  vectors from the trusted block. Neither takes priority, and the model keeps
  that.

## Model

| member | source | states |
|---|---|---|
| `BlameReconstruction.LoopCount` | core/src/sync/state/snapshot_manifest_request.rs:162-170 | The target length is the maximum of `d + 1` (checkpoint at genesis) or `d + REWARD_EPOCH_COUNT` (otherwise), where `d` is the trusted height minus the checkpoint height, and the trusted block's `blame + 1`. It is therefore at least 1. |
| `BlameReconstruction.GetBlameStates` | core/src/sync/state/snapshot_manifest_request.rs:142-209 | The loop with its mutable cursor returns exactly the specified answer: `None` on any failed precondition or lookup, and otherwise the three vectors of the walk of `LoopCount` blocks. |
| `BlameReconstruction.BlameWalkIsAncestors` | core/src/sync/state/snapshot_manifest_request.rs:175-206 | The walk of `n` blocks succeeds if and only if each of the first `n` parent-link ancestors can be reached and has execution info. The header of the `n`-th block is never needed. On success, entry `i` is the `i`-th ancestor's execution info. |
| `BlameReconstruction.BlameStatesSucceeds` | core/src/sync/state/snapshot_manifest_request.rs:145-206 | A result is returned if and only if all of these hold: a trusted block is named, both headers exist, the trusted height is at least the checkpoint height, and all `LoopCount` walked blocks are complete. Every other case is `None`, never a shorter vector. |
| `BlameReconstruction.BlameStatesContents` | core/src/sync/state/snapshot_manifest_request.rs:172-194 | A successful result has exactly `LoopCount` entries in each of the three vectors. Entry `i` of each is the matching deferred commitment of the trusted block's `i`-th ancestor, so the vectors are index-aligned. |
| `BlameReconstruction.GenesisAnchor` | core/src/sync/state/snapshot_manifest_request.rs:162-190 | Anchoring at the genesis checkpoint itself (height 0, blame 0) yields one entry: genesis's own three commitments. |
| `ReceiptCollection.CollectEpochResults` | core/src/sync/state/snapshot_manifest_request.rs:99-118 | The inner loop returns the execution results of the epoch's ordered blocks, in that order, keyed by block and epoch hash. A single missing result gives `None`. |
| `ReceiptCollection.GetBlockReceipts` | core/src/sync/state/snapshot_manifest_request.rs:82-137 | The bounded loop returns exactly the specified walk of at most `REWARD_EPOCH_COUNT` epochs from the checkpoint. It stops after an epoch at height 0. Any failed lookup gives `None`. |
| `ReceiptCollection.VisitedIsBoundedAncestry` | core/src/sync/state/snapshot_manifest_request.rs:85-127 | The visited epochs are the first ancestors of the checkpoint. There are at least one and at most `REWARD_EPOCH_COUNT` of them. Every one but the last has a header at a non-zero height. The walk ends early only at a missing header or at height 0. |
| `ReceiptCollection.ReceiptWalkIsCollected` | core/src/sync/state/snapshot_manifest_request.rs:88-136 | The walk succeeds if and only if, for every visited epoch, its header, its epoch-block list and all its blocks' results exist. On success the result is the concatenation of the epochs' results, newest epoch first, with block order preserved. |
| `ManifestRequest.Handle` | core/src/sync/state/snapshot_manifest_request.rs:36-58 | The response echoes the request id and checkpoint. The manifest is the loaded one only for `Ok(Some(m))`, and the default otherwise. The three blame vectors are either all empty (exactly when reconstruction fails) or the reconstructed ones, each of length `LoopCount`. The receipts are the collected ones, or empty when collection fails. |
| `ManifestRequest.New` | core/src/sync/state/snapshot_manifest_request.rs:62-69 | Request id 0, the given checkpoint, no start chunk, and the given trusted block. |
| `ManifestRequest.NewWithStartChunk` | core/src/sync/state/snapshot_manifest_request.rs:71-80 | Request id 0, the given checkpoint and start chunk, and no trusted block. Such a request is never answered with blame vectors. |
| `ManifestRequest.SnapshotManifestRequest.Resend` | core/src/sync/state/snapshot_manifest_request.rs:227-229 | Always returns a request, and all four of its fields equal the original's. |
| `ManifestRequest.SnapshotManifestRequest.IsEmpty` | core/src/sync/state/snapshot_manifest_request.rs:225 | Never empty. |
| `ManifestRequest.SnapshotManifestRequest.RequiredCapability` | core/src/sync/state/snapshot_manifest_request.rs:231-235 | Requires `ServeCheckpoint` for this request's own checkpoint. |
| `ManifestRequest.SnapshotManifestRequest.Timeout` | core/src/sync/state/snapshot_manifest_request.rs:217-219 | The timeout is the configured headers-request timeout. |
| `ManifestRequest.SnapshotManifestRequest.OnRemoved` | core/src/sync/state/snapshot_manifest_request.rs:221 | The in-flight keys are left unchanged. |
| `ManifestRequest.SnapshotManifestRequest.WithInflight` | core/src/sync/state/snapshot_manifest_request.rs:223 | The request is left unchanged. |

## Left out

- Headers are assumed content-addressed: the model has no header hash and
  takes the hash of the header stored under `h` to be `h`. The blame walk
  therefore starts at the requested trusted hash rather than at
  `trusted_block.hash()`, and "entry 0 is the trusted block itself" holds
  only under this assumption about the store.
- LoopCount: computed over unbounded integers. The `u64` addition of the
  height difference and `REWARD_EPOCH_COUNT` can overflow only for a trusted
  height within 12 of 2^64, and that overflow is not modelled.
- RLP encoding and decoding of the request and response, and the
  message-id and request-id macros. They are generated code from other crates.
- Sending the response is network I/O. `Handle` returns the response value
  instead.
- Loading the manifest reads storage. Its outcome is the `loaded` parameter of
  `Handle`. The layout of `RangedManifest` lives in the delta module, which is
  not part of this model: only its chunk boundaries and next cursor are kept,
  and only the default value matters here.
- The read lock on the consensus graph is concurrency. Epoch resolution is a
  pure lookup in `Context.epochBlocks`, and an absent height stands for its
  `Err`.
- Warning logs.
- `as_message` and `as_any` are dynamic typing.
- `Duration` is modelled as a natural number of milliseconds. The rest of the
  protocol configuration is not modelled.
- `KeyContainer` is reduced to a set of keys, because the hooks here never
  touch it.
- `DynamicCapability` has other variants in the source. Only `ServeCheckpoint`
  is modelled.
- The internals of an execution result (its receipts and bloom) are held as
  bytes.
