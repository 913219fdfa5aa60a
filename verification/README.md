# Verification of the Fabric delegate SDK

This project models the delegated transaction flow of the repository and proves properties of it in
Dafny 4.11. `dafny verify dfyconfig.toml` checks everything.

A delegate receives a signed proposal, has it endorsed on the client's behalf, builds the transaction
payload, and later broadcasts the signed envelope and waits for its commit. The modules follow that
path:

| module | what it covers |
|---|---|
| `Chain` | invocation chains: rebuilding around the primary chaincode, merging one call, what a chain mentions |
| `SharedMerge` | merging a whole response where results share memory as long as there is room, and what the merged chain shows in the end |
| `SliceMerge`, `SliceRuns` | the same merge, and whole runs of attempts, with Go's slices and arrays, proved to show what `SharedMerge` says |
| `RwSet`, `Extraction` | read/write-set conversions, and reading the touched chaincodes out of a response |
| `FanOut` | removal of duplicate targets; goroutines appending under a mutex, over every interleaving |
| `Endorsement`, `Coverage` | the two-phase handler and what one attempt of it guarantees |
| `Retry`, `Race` | whole runs of attempts; the worker goroutine racing the caller's timeout |
| `TxnFlow`, `Orderers`, `Submit`, `CommitWait` | transaction id flow, orderer resolution and failover, the client's broadcast, the commit wait |
| `Pipeline` | from the client's proposal to the commit of its own transaction |
| `LowS` | low-S normalisation and why it keeps signatures valid |
| `Common`, `Fabric` | shared values |

Loops and objects that change state are methods and classes, each proved against a specification
function; the results are lemmas about those functions. What the SDK does outside the repository
(selection, processors, retry handler, protobuf, ECDSA) enters as parameters with a stated contract:

* Selection is a function of the chain it is asked about and the peers to prefer, different in every
  attempt. `Coverage.Promised` is what is expected of it, and only for the chains actually asked about.
* How much room there is behind the slices of a chain is arbitrary in every attempt (`Endorsement.Env.room`).
* A processor answers with a response or an error (`Endorsement.Env.process`); answers can arrive in any
  order, so a send returns any result allowed by `FanOut.FannedOut`. Where organisations are counted, a
  peer's answer carries an identity of its own organisation (`Coverage.HonestEndorsers`).
* A codec is a marshal/unmarshal pair; `RwSet.RoundTrips` says that what was marshalled can be read
  back. Marshalling a nil message fails.
* The retry handler grants at most a fixed number of further attempts, depending on the error.
* An elliptic curve group is any commutative group with an x-coordinate map that ignores the sign.

## Findings

Three things one might expect are not true of the code. Each is stated with its exact condition. In all
of them a response names a chaincode more than once; with distinct namespaces all guards hold
(`SharedMerge.DistinctSuffices`).

* A merged result need not show what was merged into it. Results are appended to in the memory of the
  chain's first call to their chaincode as long as there is room, so a later merge overwrites what an
  earlier one appended (`SliceMerge.RepeatedIdOverwrites`). A result survives if and only if it had no
  room there, or at each of its positions the last later merge that reaches it wants the same
  (`SharedMerge.SurvivesIff`).
* The chain of the second selection can lose a collection of the response: of the primary chaincode,
  because rebuilding keeps only its last call (`SharedMerge.RepeatedPrimaryLosesCollection`), and of any
  other chaincode, because of overwriting (`SharedMerge.RepeatedOtherLosesCollection`, run on slices in
  `SliceMerge.RepeatedIdLosesCollection`). `SharedMerge.RebuiltCoversIff` says exactly when nothing is
  lost. Coverage holds if every collection is in one of the two chains that selection was asked about
  (`Coverage.EndorsementCoverage`), and cannot be concluded otherwise (`Coverage.CoverageNeedsGuard`).
* The second selection can be entered again on a retry of the same response. It is not if and only if the
  call that the rebuild puts first for each chaincode shows all of the response's collections
  (`SharedMerge.MergeAgainQuietIff`, `SharedMerge.RepeatedIdKeepsChanging`, `Retry.ReselectsAgainIff`).

Two more points where the code and its comments or names differ: the merged chain does not contain the
calls of the old chain that the response does not touch (`SharedMerge.RebuiltNamesIff`), which does no harm
because the first endorsers are kept (`Coverage.EndorsementCoverage` covers both); and an orderer that is
in the address table is used even when the configuration says to ignore it (`Orderers.TargetPrecedence`).

## Model

| member | source | states |
|---|---|---|
| Chain.NewInvocationChain | pkg/client/channel/invoke/txnhandler.go:30-40 | The primary chaincode comes first with the collections of its last entry; every other call follows in order. |
| Chain.RebuiltExactly | pkg/client/channel/invoke/txnhandler.go:30-40 | Position by position: first the primary chaincode with the collections of its last entry, or none if it has no entry; behind it exactly the calls to other chaincodes, in order. |
| Chain.Merge | pkg/client/channel/invoke/selectendorsehandler.go:183-193 | The merged call keeps the first call's id and adds the collections it lacks; it reports a change exactly when there is one. |
| Chain.MergeCCCall | pkg/client/channel/invoke/selectendorsehandler.go:157-172 | A call to a known chaincode is merged into the first such call; an unknown one is taken as it is and counts as a change. |
| Chain.AddNewContent | pkg/client/channel/invoke/selectendorsehandler.go:183-202 | Merged collections extend the old list, are exactly the union, repeat nothing the old list did not repeat, and are the old list when nothing is new. |
| Chain.AddedExactly | pkg/client/channel/invoke/selectendorsehandler.go:183-193 | What a merge appends are exactly the first occurrences of strings the old list lacks, in the order they come. |
| Chain.AcceptedExactly | pkg/client/channel/invoke/selectendorsehandler.go:100-107 | The filter keeps exactly the calls whose chaincode it accepts, in order. |
| Chain.MergeMeaning | pkg/client/channel/invoke/selectendorsehandler.go:157-193 | What a single merge gives when it is made: the accepted id, the known collections as a prefix, and exactly the union. What the whole loop leaves visible is in `SharedMerge.ShownMeaning`. |
| Chain.ChangesMeaning | pkg/client/channel/invoke/selectendorsehandler.go:140-193 | A change is reported if and only if some accepted call names an absent chaincode or a collection absent from the first matching call. |
| Chain.UnchangedCovers | pkg/client/channel/invoke/selectendorsehandler.go:45-48 | "Nothing found" means that the chain already mentioned every chaincode and collection of the response. |
| Chain.RebuiltMentions | pkg/client/channel/invoke/txnhandler.go:30-40 | A rebuilt chain mentions what the chain mentions, except that of the primary chaincode it mentions only the last entry's collections. |
| SharedMerge.MergeInvocationChains | pkg/client/channel/invoke/selectendorsehandler.go:140-155 | For responses that name chaincodes any number of times and any room in memory: the result is one call per accepted response call as they all show in the end, and nothing of the old chain besides; the flag says whether any of them changed something. |
| SharedMerge.RewrittenAt | pkg/client/channel/invoke/selectendorsehandler.go:183-193 | After any number of merges into one call, each position of its array holds what the last result reaching it wants there, or what it held before. |
| SharedMerge.SurvivesIff | pkg/client/channel/invoke/selectendorsehandler.go:143-153 | A result shows what it was merged to if and only if it had no room in shared memory, or at each of its positions the last later merge that reaches it wants the same string. |
| SharedMerge.LastSurvives | pkg/client/channel/invoke/selectendorsehandler.go:143-153 | The last result for each chaincode always shows what it was merged to. |
| SharedMerge.ShownMeaning | pkg/client/channel/invoke/selectendorsehandler.go:140-193 | At the end of the loop: ids are the accepted ids in order; each result is as long as it was merged to and begins with the known collections; whatever else it shows was named by this or a later call to the same chaincode. |
| SharedMerge.ShownDistinct | pkg/client/channel/invoke/selectendorsehandler.go:140-155 | With distinct accepted ids every result shows what it was merged to. |
| SharedMerge.RebuiltCoversIff | pkg/client/channel/invoke/txnhandler.go:30-40 | After merging and rebuilding, the chain mentions everything in the response if and only if each collection is known or in the last call (primary chaincode), or shown by some result for its chaincode (others). |
| SharedMerge.RebuiltNamesIff | pkg/client/channel/invoke/selectendorsehandler.go:140-155 | The rebuilt chain names the primary chaincode and those of the response, and no others. |
| SharedMerge.AskedAboutItem | pkg/client/channel/invoke/selectendorsehandler.go:24-37 | Under the guard, every item of the response is in the chain of the first selection or in that of the second. |
| SharedMerge.NotAskedAbout | pkg/client/channel/invoke/selectendorsehandler.go:24-37 | If the guard fails, some collection of the response is in neither chain. |
| SharedMerge.MergeAgainQuietIff | pkg/client/channel/invoke/selectendorsehandler.go:45-50 | Merging the same response into the rebuilt chain reports no change if and only if the call a rebuild puts first for each chaincode shows all its collections. |
| SharedMerge.RepresentativesLoseNothing | pkg/client/channel/invoke/selectendorsehandler.go:45-50 | If the same response merges quietly the second time, the first merge lost nothing of it. |
| SharedMerge.DistinctSuffices | pkg/client/channel/invoke/selectendorsehandler.go:140-155 | Distinct namespaces imply all three guards, whatever the room. |
| SharedMerge.MergeAgainSame | pkg/client/channel/invoke/selectendorsehandler.go:140-193 | With distinct namespaces the second merge is quiet and gives back the same chain, whatever the room. |
| SharedMerge.RepeatedIdKeepsChanging | pkg/client/channel/invoke/selectendorsehandler.go:174-181 | Two entries for one chaincode make the second merge report a change again. |
| SharedMerge.RepeatedPrimaryLosesCollection | pkg/client/channel/invoke/txnhandler.go:32-35 | Two entries for the primary chaincode lose a collection in the rebuild. |
| SharedMerge.RepeatedOtherLosesCollection | pkg/client/channel/invoke/selectendorsehandler.go:183-193 | With room for three, entries [x, y] and [y] for a chaincode known with [k] leave [k, y, y] and [k, y]: x is in neither chain selection is asked about, and the next merge is not quiet. |
| SliceMerge.Append | pkg/client/channel/invoke/selectendorsehandler.go:188 | Appending writes in place when there is capacity and moves to fresh memory otherwise. |
| SliceMerge.Merge | pkg/client/channel/invoke/selectendorsehandler.go:183-193 | On slices the result has the merged content, stays in the first call's array exactly as long as it fits, and leaves what the first call shows unchanged; the whole content of that array afterwards is stated. |
| SliceMerge.MergeCCCall | pkg/client/channel/invoke/selectendorsehandler.go:157-172 | Only the array of the first call to the same chaincode is written; its whole content afterwards is stated, and the result is in it exactly if it fits. |
| SliceMerge.ApartStep | pkg/client/channel/invoke/selectendorsehandler.go:143-153 | A further result shares memory only with calls to its own chaincode, and with no response call still to be merged, whether or not ids repeat. |
| SliceMerge.MergeInvocationChains | pkg/client/channel/invoke/selectendorsehandler.go:140-155 | On slices, for any repetition: the results show exactly what `SharedMerge` says for the capacities there are; the flag is right; everything the chain's arrays hold is stated; the first call to each chaincode, and every call of an unshared chain, looks the same afterwards; when nothing is new nothing is written; with distinct accepted ids the results share nothing. |
| SliceMerge.ResultShows | pkg/client/channel/invoke/selectendorsehandler.go:183-193 | What is visible of the result for the k-th call at the end of the loop, wherever it lives. |
| SliceMerge.InputShows | pkg/client/channel/invoke/selectendorsehandler.go:183-193 | What each call of the input chain shows afterwards, also when calls to one chaincode share an array: the old content, overwritten by all merges into that array as far as it goes. |
| SliceMerge.NothingWritten | pkg/client/channel/invoke/selectendorsehandler.go:183-193 | A merge that reports no change leaves every array of the chain as it was. |
| SliceMerge.RepeatedIdOverwrites | pkg/client/channel/invoke/selectendorsehandler.go:183-193 | With room for one more collection, merging x and then y into one call leaves both results showing y. |
| SliceMerge.RepeatedIdLosesCollection | pkg/client/channel/invoke/selectendorsehandler.go:183-193 | With room for two more, merging [x, y] and then [y] leaves a rebuilt chain that does not mention x. |
| SliceRuns.NewInvocationChain | pkg/client/channel/invoke/txnhandler.go:30-40 | The rebuilt calls hold the very slices of the old chain, the primary call that of its last entry or an empty one; they show what the value-level rebuild does. |
| SliceRuns.SliceChainUnshared | pkg/client/channel/invoke/txnhandler.go:30-40 | A rebuild uses the old chain's memory and at most one empty slice; calls that shared none share none, and calls to different chaincodes that shared none share none. |
| SliceRuns.Absorb | pkg/client/channel/invoke/selectendorsehandler.go:39-50 | One attempt replaces the chain by the merged one only if something is new; the chain then shows exactly what the value-level attempt gives for the capacities of the rebuilt chain. |
| SliceRuns.AbsorbAll | pkg/client/channel/chclient.go:274-299 | Over any number of attempts and any repetition the chain shows what the value-level merges give for the capacities found; calls to different chaincodes never come to share memory, and without repetition no calls do. |
| SliceRuns.AbsorbRetries | pkg/client/channel/chclient.go:274-299 | The chain that a run of attempts leaves in memory is the chain of the run in `Retry`. |
| RwSet.TxRwSet.ToProtoMsg | pkg/client/channel/invoke/rwsetutil/rwset_proto_util.go:128-139 | The loop converts every namespace set in order or fails with the first error. |
| RwSet.TxRwSet.ToProtoBytes | pkg/client/channel/invoke/rwsetutil/rwset_proto_util.go:79-86 | Conversion followed by marshalling. |
| RwSet.TxRwSet.FromProtoBytes | pkg/client/channel/invoke/rwsetutil/rwset_proto_util.go:89-101 | The receiver is replaced by the decoded sets, or left untouched on any error. |
| RwSet.TxRwSetFromProtoMsg | pkg/client/channel/invoke/rwsetutil/rwset_proto_util.go:141-152 | All namespace messages are decoded in order or the first error is returned. |
| RwSet.NsToProtoMsg | pkg/client/channel/invoke/rwsetutil/rwset_proto_util.go:154-169 | One namespace set becomes its message, leaf and collections. |
| RwSet.NsFromProtoMsg | pkg/client/channel/invoke/rwsetutil/rwset_proto_util.go:171-185 | One namespace message becomes its set. |
| RwSet.TxPvtRwSet.ToProtoMsg | pkg/client/channel/invoke/rwsetutil/rwset_proto_util.go:215-226 | The private sets are converted in order or the first error is returned. |
| RwSet.TxPvtRwSet.FromProtoBytes | pkg/client/channel/invoke/rwsetutil/rwset_proto_util.go:114-126 | The private receiver is replaced, or left untouched on any error. |
| RwSet.TxPvtRwSetFromProtoMsg | pkg/client/channel/invoke/rwsetutil/rwset_proto_util.go:228-239 | All private namespace messages are decoded in order or the first error is returned. |
| RwSet.NsPvtToProtoMsg | pkg/client/channel/invoke/rwsetutil/rwset_proto_util.go:241-252 | One private namespace set becomes its message. |
| RwSet.NsPvtFromProtoMsg | pkg/client/channel/invoke/rwsetutil/rwset_proto_util.go:254-265 | One private namespace message becomes its set. |
| RwSet.NsMessageExactly | pkg/client/channel/invoke/rwsetutil/rwset_proto_util.go:154-169 | Every field of a namespace message, for each collection. |
| RwSet.NsMessageFails | pkg/client/channel/invoke/rwsetutil/rwset_proto_util.go:154-169 | Which error a namespace gives: the leaf first, then the first collection that cannot be marshalled. |
| RwSet.TxMessageExactly | pkg/client/channel/invoke/rwsetutil/rwset_proto_util.go:128-139 | Data model KV and one message per namespace in order, or the error of the first namespace that has one. |
| RwSet.NsDecodedExactly | pkg/client/channel/invoke/rwsetutil/rwset_proto_util.go:171-185 | Every field of a decoded namespace, or the error: the leaf first, then the first collection. |
| RwSet.TxDecodedExactly | pkg/client/channel/invoke/rwsetutil/rwset_proto_util.go:141-152 | One set per namespace message in order, or the error of the first that has one. |
| RwSet.NsPvtMessageExactly | pkg/client/channel/invoke/rwsetutil/rwset_proto_util.go:241-252 | Every field of a private namespace message, or the error of the first collection that has one. |
| RwSet.TxPvtMessageExactly | pkg/client/channel/invoke/rwsetutil/rwset_proto_util.go:215-226 | The private message: data model KV, namespaces in order, first error. |
| RwSet.NsPvtDecodedExactly | pkg/client/channel/invoke/rwsetutil/rwset_proto_util.go:254-265 | Every field of a decoded private namespace, or the first error. |
| RwSet.TxPvtDecodedExactly | pkg/client/channel/invoke/rwsetutil/rwset_proto_util.go:228-239 | One private set per message in order, or the first error. |
| RwSet.TxConvertsIff | pkg/client/channel/invoke/rwsetutil/rwset_proto_util.go:128-197 | Converting a public set succeeds if and only if every leaf at every level marshals. |
| RwSet.TxPvtConvertsIff | pkg/client/channel/invoke/rwsetutil/rwset_proto_util.go:215-274 | The same for private sets. |
| RwSet.TxDecodesIff | pkg/client/channel/invoke/rwsetutil/rwset_proto_util.go:141-209 | Decoding a public message succeeds if and only if every leaf unmarshals. |
| RwSet.TxPvtDecodesIff | pkg/client/channel/invoke/rwsetutil/rwset_proto_util.go:228-282 | The same for private messages. |
| RwSet.TxBytesRoundTrip | pkg/client/channel/invoke/rwsetutil/rwset_proto_util.go:79-101 | Encoding a public transaction set and decoding the bytes is the identity, at all three levels and in order. |
| RwSet.TxPvtBytesRoundTrip | pkg/client/channel/invoke/rwsetutil/rwset_proto_util.go:104-126 | The same for private sets, for messages and for bytes. |
| RwSet.TxReverseIff | pkg/client/channel/invoke/rwsetutil/rwset_proto_util.go:128-209 | Decoding and re-encoding a message gives it back, with the data model set to KV, if and only if all its leaves are canonical. |
| RwSet.TxPvtReverseIff | pkg/client/channel/invoke/rwsetutil/rwset_proto_util.go:215-282 | The same for private messages. |
| Extraction.GetRWSetsFromProposalResponse | pkg/client/channel/invoke/selectendorsehandler.go:111-138 | A missing response or empty results give no sets; otherwise the payload, action and sets are decoded or the first error is returned. |
| Extraction.GetInvocationChainFromResponse | pkg/client/channel/invoke/selectendorsehandler.go:92-109 | One call per namespace with its collection names, filled in by index. |
| Extraction.ExtractionCases | pkg/client/channel/invoke/selectendorsehandler.go:92-138 | What is found in every case: nothing without a payload or results, the error of the first level that cannot be read, otherwise a call with the collection names of each decoded set. |
| Extraction.ShortcutAgrees | pkg/client/channel/invoke/selectendorsehandler.go:128-130 | The shortcut for empty results agrees with decoding no bytes. |
| Extraction.ExtractionInvertsEncoding | pkg/client/channel/invoke/selectendorsehandler.go:92-138 | From a response built around any encoded transaction set, extraction recovers exactly the namespaces and collection names, in order. |
| FanOut.GetTargetsWithoutDuplicates | pkg/fab/txn/proposal.go:63-84 | The first target of each URL is kept; if any target is not a peer the list is returned whole. The map's keys are the kept URLs throughout. |
| FanOut.FirstByUrlKeeps | pkg/fab/txn/proposal.go:63-84 | Kept targets have exactly the URLs of the input, each once. |
| FanOut.KeptAreFirstOccurrences | pkg/fab/txn/proposal.go:67-77 | The kept targets are those at the positions where a URL occurs first: the positions ascend and are exactly the first occurrences. |
| FanOut.UniqueIdempotent | pkg/fab/txn/proposal.go:63-84 | Removing duplicates twice is removing them once. |
| FanOut.StepKeepsInv | pkg/fab/txn/proposal.go:38-57 | Every step of every goroutine and of the caller keeps mutual exclusion, the wait group's count and the record of what was written, and uses up one step. |
| FanOut.SomeThreadCanMove | pkg/fab/txn/proposal.go:38-57 | Until the wait returns, some thread can move. |
| FanOut.FanOutConserves | pkg/fab/txn/proposal.go:29-59 | For every interleaving: when the wait returns, the two lists are the answers of all targets in some order, each exactly once; the lock is never held twice; runs are bounded. |
| FanOut.ConservedContent | pkg/fab/txn/proposal.go:43-57 | Every answer is in the list it belongs to exactly as often as it was given. |
| FanOut.ResponsesAreAnswers | pkg/fab/txn/proposal.go:43-59 | Responses are exactly the successes of the unique targets, each as often as it was given; the error is nil if and only if all succeeded, and then there is one response per unique target. |
| FanOut.ErrorsAreAnswers | pkg/fab/txn/proposal.go:45-59 | The error itself: nil if no target failed; if exactly one did, that target's very error; if two or more did, the list of all their errors, each exactly as often as it was given. |
| FanOut.AllAskedWithoutPeers | pkg/fab/txn/proposal.go:67-72 | If some target is not a peer, every target is sent the proposal, repetitions included, and exactly these answers are collected. |
| FanOut.SendSignedProposal | pkg/fab/txn/proposal.go:14-60 | No proposal, no targets and a nil target are refused with their own errors; otherwise the loop ends for any choice of schedule with every answer recorded once. |
| Endorsement.TransactorSend | pkg/fab/channel/transactor.go:148-158 | Without a client context, a proposal or targets the send fails; otherwise it fans out. |
| Endorsement.RequestContext.GetEndorsers | pkg/client/channel/invoke/selectendorsehandler.go:24-37 | Selection is asked about the rebuilt chain, which is also returned. |
| Endorsement.RequestContext.GetAdditionalEndorsers | pkg/client/channel/invoke/selectendorsehandler.go:39-74 | The request's chain is replaced by the merged one, as it shows in the end, only if something new was found; the result is the newly selected peers whose organisation was not asked. |
| Endorsement.RequestContext.GatherMore | pkg/client/channel/invoke/txnhandler.go:161-183 | Errors of discovery and selection end the second phase quietly; a failed second send is an error; otherwise its responses are appended. |
| Endorsement.RequestContext.Handle | pkg/client/channel/invoke/txnhandler.go:123-188 | The whole context after one attempt, for every result the two sends may have; what this is, without naming the function, is in `Coverage.NextDecides` and `Coverage.FailsWith`. |
| Endorsement.RequestContext.HandleEndorsement | pkg/client/channel/invoke/txnhandler.go:49-84 | The whole context after the query handler; see `Coverage.QueryNextDecides` and `Coverage.QueryFailsWith`. |
| Coverage.SendSucceedsIff | pkg/fab/channel/transactor.go:148-158 | A send succeeds if and only if there is a client context, a proposal and a peer, and every unique peer answers. |
| Coverage.NextDecides | pkg/client/channel/invoke/txnhandler.go:145-188 | When all sends succeeded, the attempt ends with exactly the gathered context, field by field, and the error is what the next handler reports on it, nil if it reports none. |
| Coverage.NilMeansNextAgreed | pkg/client/channel/invoke/txnhandler.go:123-188 | Conversely, a nil error means that the sends succeeded and that the next handler reported none on the final context. |
| Coverage.FailsWith | pkg/client/channel/invoke/txnhandler.go:128-174 | How an attempt fails before the next handler: selection, missing proposal, missing transactor, first send, second send; with which error and what is kept. |
| Coverage.UserTargetsOnly | pkg/client/channel/invoke/selectendorsehandler.go:24-31 | With user targets exactly these are asked, and the attempt does not depend on selection, the filter, or what the response touched. |
| Coverage.FilterRejects | pkg/client/channel/invoke/selectendorsehandler.go:76-90 | A chaincode passes the filter if and only if it is neither lscc nor _lifecycle and the user's filter, if any, accepts it. |
| Coverage.DiscoveredExactly | pkg/client/channel/invoke/selectendorsehandler.go:92-109 | The second phase looks at the readable calls of the first response without lscc, _lifecycle and those the user's filter rejects, all others in order; exactly when there are no user targets. |
| Coverage.ReselectsIff | pkg/client/channel/invoke/selectendorsehandler.go:45-48 | Selection is asked a second time if and only if the first response names a chaincode, or a collection of one, that is not in the chain it was asked about first. |
| Coverage.AdditionalExactly | pkg/client/channel/invoke/selectendorsehandler.go:39-74 | The second send goes to nobody without a second selection or if that fails, and otherwise to exactly its peers whose organisation was not asked, in order; it is asked about the rebuilt merged chain with the peers already asked as preferred. |
| Coverage.ResponseAccounting | pkg/client/channel/invoke/txnhandler.go:145-183 | Responses are the first batch then the additional one, one per unique peer asked; payload and status agree with the first response, which always exists. |
| Coverage.SuccessMeansAllSent | pkg/client/channel/invoke/txnhandler.go:123-188 | An attempt that ends without error made its sends successfully. |
| Coverage.NoUrlAskedTwice | pkg/client/channel/invoke/selectendorsehandler.go:65-73 | If peers with one URL belong to one organisation, no URL is asked twice and the two sends ask disjoint organisations. |
| Coverage.EndorsersIncludeSelected | pkg/client/channel/invoke/txnhandler.go:161-178 | The organisations among the collected endorsements include every organisation of both selections. |
| Coverage.EndorsementCoverage | pkg/client/channel/invoke/txnhandler.go:123-188 | Without any error, and if after a second selection every collection is in one of the two chains asked about, the organisations that endorsed satisfy every monotone policy selection promised, for everything in the first response and in the chain the attempt started from. |
| Coverage.CoverageNeedsGuard | pkg/client/channel/invoke/txnhandler.go:123-188 | Whenever that guard fails, some monotone policy was promised for both selections, is not satisfied by the endorsements collected, and would be with one more organisation's. |
| Coverage.QueryAccounting | pkg/client/channel/invoke/txnhandler.go:65-78 | A successful query has one response per unique target and the payload and status of the first. |
| Coverage.QueryNextDecides | pkg/client/channel/invoke/txnhandler.go:65-84 | When the query's send succeeded, it ends with the gathered context and exactly the error the next handler reports on it. |
| Coverage.QueryNilMeansNextAgreed | pkg/client/channel/invoke/txnhandler.go:49-84 | A query without error had targets, a proposal, a transactor and a successful send, and the next handler reported none. |
| Coverage.QueryFailsWith | pkg/client/channel/invoke/txnhandler.go:49-75 | How a query fails before the next handler, leaving everything else as it was. |
| Retry.Invoke | pkg/client/channel/chclient.go:274-299 | The loop performs a complete run: granted retries only, reset in between, at most the limit of further attempts. |
| Retry.GoesOnIff | pkg/client/channel/chclient.go:274-299 | A run goes on after an attempt if and only if that ended with a retryable error within the limit: never after a nil error. |
| Retry.AttemptsAreIsolated | pkg/client/channel/chclient.go:284-287 | Every attempt starts from the user's targets with empty error and response; only the discovered chain survives. |
| Retry.ResponsesOfOneAttempt | pkg/client/channel/chclient.go:284-287 | A run's responses come from the sends of its last attempt only. |
| Retry.SuccessfulRunAccounting | pkg/client/channel/chclient.go:274-303 | A run without error ends with one endorsement per peer its last attempt asked, each given in that attempt. |
| Retry.SuccessfulRunIsValidated | pkg/client/channel/chclient.go:274-303 | A run that ends without error was validated: the next handler of its last attempt reported none on the final context. |
| Retry.SuccessfulRunIsCovered | pkg/client/channel/chclient.go:274-303 | After any number of retries, the final endorsements satisfy the promised policies for all the last first response touched and for the chain the last attempt started from, under the exact guard of coverage. |
| Retry.QuietFrom | pkg/client/channel/invoke/selectendorsehandler.go:45-50 | Once the merged chain is there and its representatives show the common footprint, it stays and no later attempt selects a second time, whatever the room. |
| Retry.ReselectsAtMostOnce | pkg/client/channel/invoke/selectendorsehandler.go:45-50 | With one footprint that the representatives of the merged chain show (distinct namespaces always do), a run enters the second selection at most once and keeps the chain merged then. |
| Retry.ReselectsAgainIff | pkg/client/channel/invoke/selectendorsehandler.go:45-50 | After a second selection, the next attempt on the same response selects again if and only if the representatives of the merged chain do not show all of it. |
| Retry.ChainIsAbsorbed | pkg/client/channel/chclient.go:274-299 | The chain at the start of every attempt is what merging the calls found so far gives, for the room each attempt had. |
| Race.RaceIsSafe | pkg/client/channel/chclient.go:292-307 | Over every interleaving the caller returns the final attempt's response and error, read after the worker's last write, or no responses and the timeout status once the time is over; the worker's send never blocks. |
| Race.WorkerTerminates | pkg/client/channel/chclient.go:293-300 | Every worker step lowers the attempts left, or the writes left in the current one; nobody else's step moves the worker. |
| Race.CallerNotStuck | pkg/client/channel/chclient.go:301-307 | Once the worker has ended, the caller can move until it has returned. |
| Race.TimeCanRunOut | pkg/client/channel/chclient.go:292-307 | The request can time out in any state, wherever the worker is. |
| Race.TimeoutReturns | pkg/client/channel/chclient.go:301-307 | A caller that still waits when the request has timed out can return at once with no responses and the timeout status, wherever the worker is: a hanging peer does not hold it. |
| Race.CallerCanMove | pkg/client/channel/chclient.go:301-307 | The caller can move whenever a signal is pending or the time is over, and from every later state until it has returned; where each move leads. |
| Race.ReturnedIsValidated | pkg/client/channel/chclient.go:258-308 | A call that returns without error returns the final response, on which the last attempt's next handler reported none. |
| Race.ReturnedEndorsementsAreCovered | pkg/client/channel/chclient.go:258-308 | Whatever the schedule and the number of retries, endorsements returned without an error satisfy the policies promised for all the last first response touched and for the chain the last attempt started from. |
| TxnFlow.IdSurvivesPayload | pkg/client/channel/chclient.go:341-371 | The id read from the serialised payload is the one in the proposal's channel header. |
| TxnFlow.PayloadExactly | pkg/client/channel/chclient.go:213-247 | What is made of a client's proposal in every case: refused without a channel id; a missing chaincode is dereferenced; otherwise exactly the client's chaincode is endorsed and the payload holds the client's header and the transaction built for the client's id, or the error of endorsing or building. |
| TxnFlow.UnreadableFails | pkg/client/channel/chclient.go:213-233 | Bytes that cannot be read at some level end the call with the error of that level, whatever the endorsement would do. |
| TxnFlow.IdSurvivesPipeline | pkg/client/channel/chclient.go:213-247 | From the client's serialised proposal to the id read back: always the client's own, and the transaction is built for it from what endorsing the client's chaincode returned. |
| TxnFlow.TxnIDReadableIff | pkg/client/channel/chclient.go:397-414 | An id is read if and only if there is a decodable channel header with a channel id, and it is that header's; otherwise the error of the level that fails; a missing header is dereferenced. |
| Orderers.OrderersFromChannel | pkg/fab/channel/transactor.go:85-101 | The loop over the channel's own orderers; what it computes is in the next three rows. |
| Orderers.ChannelOrderersExactly | pkg/fab/channel/transactor.go:85-101 | The result has one orderer for each listed name that is found and not to be ignored, in the order of the list, created from the config found for that name. |
| Orderers.ChannelOrderersMembers | pkg/fab/channel/transactor.go:85-101 | An orderer is in the result if and only if some listed name is found, not to be ignored, and its config creates it. |
| Orderers.ChannelOrderersFail | pkg/fab/channel/transactor.go:85-101 | There is an error if and only if the config of some listed name that is found and not to be ignored cannot be created; it is the first such name's. |
| Orderers.OrderersByTarget | pkg/fab/channel/transactor.go:103-112 | The table maps each address to the last config with it. |
| Orderers.OrderersFromChannelCfg | pkg/fab/channel/transactor.go:44-83 | The loop over the targets, when the channel has no orderers of its own; what it computes is in the next three rows. |
| Orderers.OwnOrderersFirst | pkg/fab/channel/transactor.go:44-51 | The channel's own orderers, or their error, are returned whatever the targets are; the targets are consulted exactly if there are none. |
| Orderers.FallbackExactly | pkg/fab/channel/transactor.go:53-83 | One orderer for each target that is not skipped, in order, created from the config the target stands for. |
| Orderers.FallbackFails | pkg/fab/channel/transactor.go:53-83 | The fallback fails if and only if the config of some target that is not skipped cannot be created; with the first such target's error. |
| Orderers.TargetPrecedence | pkg/fab/channel/transactor.go:56-73 | For one target: the last table entry, even if ignored; else skipped if ignored; else the matching config; else the bare URL. |
| Orderers.BroadcastEnvelope | pkg/fab/txn/txn.go:16-43 | For every drawn order, exactly the prefix up to the first acceptance is tried; the error is nil if and only if there is a client context and some orderer accepts; otherwise it is the last orderer's, by its URL, or says that orderers or context are missing; never neither response nor error. |
| Orderers.NoOrdererTwice | pkg/fab/txn/txn.go:34 | No list position is tried twice: an orderer is sent the envelope at most as often as it is in the list, and at most once if the list has no repetition. |
| Orderers.SuccessIndependentOfOrder | pkg/fab/txn/txn.go:33-42 | Whether a broadcast succeeds does not depend on the drawn order. |
| Orderers.BroadcastOverResolved | pkg/fab/channel/transactor.go:44-83 | Over resolved fallback orderers, a broadcast succeeds if and only if the orderer of some target that is not skipped accepts. |
| Submit.BroadcastEnvelope | pkg/client/channel/chclient.go:424-484 | A registration is made if and only if an id is read, there is no option error, there is a delegate transactor, and the event service takes it; then sends come after it and one unregistration comes last, on every path, as a run of the commit wait; otherwise nothing is sent. The error is nil if and only if, in addition, there is a client context, some orderer accepts and the wait ends with VALID. Every other error is stated. |
| Submit.SendAndWait | pkg/client/channel/chclient.go:447-484 | After a registration: nil if and only if some orderer accepts and the status is VALID; unregistered on every path, behind exactly the sends made, as a run of the commit wait. |
| Submit.Deliver | pkg/client/channel/chclient.go:457-484 | The sends and the wait: with an acceptance the status of the wait gives code and error (none for VALID, the invalid transaction otherwise) or the timeout gives its own; without one the broadcast's error. |
| Submit.BracketedExactly | pkg/client/channel/chclient.go:447-484 | Between registration and unregistration there is exactly one send for each orderer tried, in order. |
| CommitWait.CommitWaitIsSafe | pkg/client/channel/chclient.go:424-484 | Over every run of client, orderers and event service: a nil error only after an orderer was sent the envelope and a VALID status of this transaction was delivered; no status caused by the broadcast is missed; every registration is undone once. |
| CommitWait.ClientCanMove | pkg/client/channel/chclient.go:460-484 | The client can move in every state but one: waiting with no status and time left; a status that came decides the verdict, and otherwise the timeout does. |
| CommitWait.EventsAreHistory | pkg/client/channel/chclient.go:453-458 | What was recorded about a published status never changes later. |
| CommitWait.StatusesConserved | pkg/client/channel/chclient.go:453-480 | At every moment the statuses that reached the notifier are, in order, the one the verdict was made of and those still waiting: none is lost, repeated, reordered or of another transaction. |
| CommitWait.FirstStatusDecides | pkg/client/channel/chclient.go:463-480 | A verdict VALID or invalid is that of the first status that reached the client. |
| Pipeline.CallIsForClientsChaincode | pkg/client/channel/chclient.go:221-235 | The chaincode that is endorsed, read from the proposal's header extension, is the client's. |
| Pipeline.PayloadIsOwn | pkg/client/channel/chclient.go:213-247 | With or without user targets: the endorsement call returned without error and was validated by the last attempt's next handler; the payload holds the client's header and the transaction built for the client's own id from the responses, one for each peer the last attempt asked; the id read back is the client's. |
| Pipeline.PayloadIsCovered | pkg/client/channel/chclient.go:213-247 | Without user targets, the responses in the payload satisfy the promised policies for the proposal's chaincode and all that was found to be touched. |
| Pipeline.SubmitOwn | pkg/client/channel/chclient.go:424-484 | Broadcasting that payload registers and unregisters the client's own transaction id and no other, exactly if the service allows it, as a run of the commit wait for it; the error is nil if and only if, in addition, some orderer accepts and the VALID status of that id comes. |
| Pipeline.SubmittedIsOwnAndCovered | pkg/client/channel/chclient.go:213-484 | Over every schedule of the endorsement call without user targets and every run of the commit wait: a nil error means that the envelope was sent and a VALID status of the client's own transaction id came, and the payload submitted carries endorsements that satisfy the promised policies. |
| LowS.IsLowS | pkg/msp/user.go:116-124 | For P-224, P-256, P-384 and P-521, whether twice the scalar is at most the order; for every other curve the error. |
| LowS.ToLowS | pkg/msp/user.go:126-141 | Succeeds exactly for the four curves; the caller's own integer is then returned and holds the low value; on error it is unchanged. |
| LowS.Sign | pkg/msp/user.go:75-92 | For the four curves the marshalled signature has the low form of the drawn scalar; otherwise, or if drawing fails, the error. |
| LowS.LowIsCanonical | pkg/msp/user.go:94-141 | The result is s or N-s, in 1..N/2, stable, and the same for both; for odd N exactly one of the pair is low. |
| LowS.LowSeparates | pkg/msp/user.go:126-141 | Two scalars have one low form if and only if they are equal or negatives of each other. |
| LowS.InverseOfNegated | pkg/msp/user.go:135 | The inverse of N-s is N minus the inverse of s. |
| LowS.AnyInverseDecides | pkg/msp/user.go:75-92 | A signature verifies if and only if its scalar has an inverse and every inverse gives an accepted point, so the choice made by a verifier does not matter. |
| LowS.RecomputedNegates | pkg/msp/user.go:135 | With the negated inverse, the verifier's recomputed point is negated. |
| LowS.LowSKeepsValidity | pkg/msp/user.go:75-92 | For every scalar, a signature verifies if and only if its low-S form does. |
| LowS.SignedVerifies | pkg/msp/user.go:75-92 | A signature drawn with a private key verifies under the public key of that private key, and so does the low form that is sent, over any lawful group. |

## Left out

- SDK internals (selection, discovery, greylist, retry timing, event hub, gRPC, validation handlers, `txn.New`): only the contracts described above are modelled.
- Protobuf and ASN.1 formats, SHA-256 and curve arithmetic: library code, represented by codecs and an abstract group.
- `pkg/msp/ecdsa_key.go`, `pkg/fabsdk`, `pkg/core/config`, option setters in `pkg/client/channel/api.go`, `createReqContext`, `prepareOptsFromOptions` and `CreateSignedProposal`: accessors and wiring.
- Peer filter, peer sorter and `prioritizePeers`: they only parameterise selection, whose contract does not depend on them.
- What happens before a retry besides the reset (the user's callback and the greylist): it changes only what the next attempt finds around it, which is arbitrary.
- Logging, and contexts other than one timeout event and the presence of a client context.
- Nil elements in slices of structures, and a response without a chaincode response inside: Go would dereference nil; the model has no such values, except where a missing message header is modelled.
- `DelegateQuery` and the SDK's proposal-processor handler: the query's own endorsement step is modelled, the surrounding handlers are not.
- Race.RaceIsSafe: the handler's writes during an attempt are arbitrary, so nothing is said about what the context holds in the middle of one.
- Chains given by a user in which calls to different chaincodes share a backing array: the slice modules assume that they do not.
- Submit.BroadcastEnvelope: the wait is a given wake-up; which of a status and a timeout wins when both are ready, and what the event service does meanwhile, is in `CommitWait`.
