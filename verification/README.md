# A model of the agent marketplace

This project models the state-keeping and arithmetic of an AI-agent marketplace: hiring an agent
over x402 or through an ERC-8183 escrow, indexing token transfers on BNB Smart Chain and linking
them to agents, mirroring a listing and its reviews, scoring, classifying and screening agents, and
wallet login. Dafny proves what those parts keep over every run. Run `dafny verify dfyconfig.toml`
to check it.

## How to read it

Strings are real strings: address patterns, `strip`, `lower`, decimal printing and parsing are
spelled out in `PyText.dfy`, including Python's `$`, which also matches before a final newline.
Requests, answers of other machines, clocks and random draws are parameters, so "for every run"
means for every choice of them. Signing, recovering and the EIP-55 checksum are functions under one
law (`Payment.Lawful`). Where the source updates something in place there is a class whose methods
are proved equal to a transition function, and the theorems are about that function. Lemmas carry
`{:induction false}` wherever Dafny would otherwise add an induction hypothesis of its own.

| file | models |
|---|---|
| `PyText.dfy`, `Json.dfy`, `Wrappers.dfy`, `Rounding.dfy` | text patterns and numerals, JSON trees, options and results, half-even rounding |
| `Payment.dfy`, `BrowserWallet.dfy` | offers, challenges, envelopes and verification; what the browser signs |
| `HireDesk.dfy`, `HireAnswers.dfy`, `HireRuns.dfy`, `HireEndToEnd.dfy`, `Settlement.dfy` | the hire table with both rails, which error each request answers, its runs, the protocol end to end, one settlement |
| `Chain.dfy`, `ChainScan.dfy`, `TransferIndex.dfy`, `IndexConvergence.dfy`, `EventCounts.dfy` | logs, chunked scans, the transfer table, overlapping scans, NFT events and their counts |
| `LinkBackfill.dfy`, `TimestampResolver.dfy`, `WorkerRanges.dfy` | the keyset backfill, block timestamps, which blocks the workers scan |
| `RpcClient.dfy` | failover with cooldown |
| `WalletScore.dfy`, `AgentScore.dfy` | the scores |
| `AgentRows.dfy`, `SyncWorker.dfy`, `ProbeWorker.dfy`, `Categories.dfy`, `Reclassify.dfy` | one agent row and its writers |
| `FlaggedMirror.dfy`, `Compliance.dfy` | sanctioned addresses, flags, penalties and their display |
| `ListingWalk.dfy`, `FeedbackWalk.dfy`, `LoginNonce.dfy` | paginated walks, login |

## Where the code differs from its documentation or its purpose

Each point is the behaviour of the code as modelled, with a lemma that gives the exact condition or
a concrete input.

- Polygon's token constant has 41 hex digits (app/config.py:87). Offers on it are accepted and
  hires created, but no envelope can ever pay them (`PolygonHireNeverPaid`).
- Avalanche's token constant has one letter in the wrong case (app/config.py:94), so it is not an
  EIP-55 address: no browser can sign for it and no envelope can ever pay a hire on that chain
  (`AvalancheHireNeverPaid`).
- A payee followed by a newline, or in mixed case without its EIP-55 checksum, passes both address
  patterns, but no wallet can sign for it as quoted (`EnvelopeExistsIff`); the pay request takes any
  encodable spelling of it (`HonestPaymentVerifiesIff`).
- The offer parser is documented never to raise; a `payTo` that is not a string makes it raise, and so
  does a string amount of more than 4300 digits next to a good `payTo` (`ProbeRaisesIff`).
- An envelope that names no token passes verification and is broadcast to the zero address, where
  the documentation has the configured token resolved (`SettlesOnRailTokenIff`).
- The last partial second of a challenge can be lost to whole-second comparison
  (`LastPartialSecondRejected`).
- Quotes of 10^20 wei and more do not fit the amount column, so the hire fails
  (`CreateSucceedsIff`).
- Resubmitting a recorded escrow job, documented as a no-op, overwrites the transaction hash
  (`ResubmitIsNoOpIff`).
- A hire marked FAILED may have been paid: a node that takes the transaction but whose answer is
  lost, an error or no hash, a receipt that is late, and a node that fails while polling are all
  reported like a refusal (`SentOutcomeIff`, `SentHireStatusIff`).
- A hire stays PENDING, and its envelope can be broadcast again, exactly when the broadcast ended in
  an exception nobody caught or in a hash too long for its column (`BroadcastAgainIff`).
- The backward scan with a block range above ten skips blocks (`BackwardCoversAllIff`).
- Event counts survive rescans while every scan's clock keeps its blocks on their true side of the
  90-day cutoff (`RescanKeepsCounts`, `ResolverKeepsSide`); a scan without edge timestamps stamps
  copies with the present and can bring an expired event back (`FallbackClockRevivesEvent`).
- The realtime worker repeats a range without transfers, or whose request failed, until it falls 200
  blocks behind, and then skips ahead (`EmptyRangeRepeats`). A failed log request is stored like an
  empty answer: its blocks are missing until another scan is served them (`ScansKeys`).
- The stall exit code 2 of the backfill is documented for wallets that match nothing; it occurs only
  for wallets whose agent ids are all empty (`StallIff`).
- Scoring divides by zero for every agent with an event less than a day old (`ScoringFailsIff`), and
  such an agent undoes the probe cycle of its whole batch (`CycleCommitsIff`). A wallet active today
  is scored like one never active (`TodayScoresAsNever`).
- More events can lower the wallet-activity score: exactly when what the new number of events lets
  through of the raw score's distance from 50 falls short of the old score, which takes fewer than
  three events before and a raw score below 50 (`EventsLowerIff`, `BelowPriorIff`).
- The enrichment never writes the categories `rebalancing` and `other`, so a row that should fall
  back to one of them keeps its old category until the next re-classification
  (`EnrichLeavesRichIff`).
- The number of reviews a walk reports counts elements it skipped (`CountIsStoredIff`), and an
  upstream that answers with bare lists is read for one page only (`DefaultReach`).

## Model

| member | source | states |
|---|---|---|
| `PyText.ParseFormat` | app/static/js/payment.js:109-130 | An amount or time the browser prints in decimal reads back as the same number, so no digit is lost between signing and decoding. |
| `PyText.MatchesAddressIff` | app/services/x402_client.py:171-209 | The address pattern, whose `$` also matches before a final newline, accepts exactly `0x` and 40 hexadecimal digits with at most one newline after them. |
| `PyText.ParseConcat` | app/services/payment.py:130-135 | Reading decimal digits is positional: the digits before the last k count 10^k each. |
| `Payment.NetworkRoundTrip` | app/services/payment.py:143-158 | `eip155:<n>` of a chain id parses back to that chain id, for every chain id. |
| `Payment.ChainOfIff` | app/services/payment.py:143-158 | A network names chain n exactly when it is `eip155:` and digits reading n, with at most one newline after them; beyond 4300 digits reading it raises. |
| `Payment.ProbeRaisesIff` | app/services/x402_client.py:171-209 | Documented as never raising, the offer parser raises exactly on a 402 whose first accept is complete and quotes a `payTo` that is not a string, or a good `payTo` with a decimal string of more than 4300 digits as amount. |
| `Payment.ParseOfferIff` | app/services/x402_client.py:171-209 | An answer parses to an offer exactly when it is a 402 whose first accept quotes that payee, an amount that reads as those wei, that asset and that network. |
| `Payment.QuotedAmountParses` | app/services/x402_client.py:171-209 | A 402 quoting n wei, as a number or as the decimal string of n, is parsed to exactly n and the quoted payee, asset and network. |
| `Payment.SupportedIff` | app/services/x402_client.py:212-225 | An offer is supported on a chain exactly when its network names that chain, the chain has a rail and the asset is its token up to letter case. |
| `Payment.DecodesIff` | app/services/payment.py:233-343 | An envelope decodes to a payment without a fee exactly when its version is 1 or 2, it names a resource and a network, is no permit, and its payload spells that authorization and signature, its chain and its token. |
| `Payment.EnvelopeChainIff` | app/services/payment.py:143-158 | The chain of an envelope is that of its accepted network, else of its own network, else the accepted chain id, else its own. |
| `Payment.EnvelopeTokenIff` | app/services/payment.py:233-343 | The token is the accepted asset, which must match the address pattern; an envelope naming none gets the zero address. |
| `Payment.FeeIff` | app/services/payment.py:310-343 | A legacy fee is read exactly when it spells an authorization and a signature by the same payer, on the chain and token of the payment. |
| `Payment.LawIsSatisfiable` | app/services/payment.py:351-385 | The law assumed of signing, recovery and the EIP-55 checksum can be met: a concrete scheme with distinct addresses satisfies it. |
| `BrowserWallet.EnvelopeDecodes` | app/static/js/payment.js:131-144 | Every envelope the browser builds around an authorization over real addresses decodes to exactly that authorization, on the challenge's chain and token, without a fee. |
| `BrowserWallet.AuthorizationDecodes` | app/services/payment.py:233-343 | The six authorization fields, printed and parsed, come back unchanged. |
| `HireDesk.HireTable.SweepExpired` | app/routers/hires.py:67-81 | The bulk update cancels exactly the caller's pending x402 rows past their expiry, stamps them, touches no other row, and returns how many. |
| `HireDesk.HireTable.CreateHire` | app/routers/hires.py:85-152 | Creating a hire in place leaves the table and answers as the create transition: sweep and insert together on success, nothing at all on any error. |
| `HireDesk.HireTable.PayHire` | app/routers/hires.py:156-240 | Paying in place leaves the table, the broadcast log and the answer as the pay transition, for each way a broadcast can end, a hash too long for its column included. |
| `HireDesk.HireTable.CreateEscrowHire` | app/routers/escrow_hires.py:84-192 | Creating an escrow hire in place leaves the table and answers as the escrow-create transition, including the provider, budget and address errors. |
| `HireDesk.HireTable.SubmitEscrowHire` | app/routers/escrow_hires.py:201-233 | Submitting a job in place leaves the table and answers as the submit transition, including the already-bound and job-taken conflicts. |
| `HireRuns.RunsKeepInvariant` | app/routers/hires.py:170-240 | Over every run of create, sweep, pay, escrow create and submit: PAID exactly with a transaction, FAILED exactly after one refused broadcast, no recorded broadcast for PENDING or CANCELLED, escrow rows PAID exactly with a job and never broadcast, every broadcast paid its row's quote, and no owner has one job on two rows. |
| `HireRuns.StepChanges` | app/routers/hires.py:67-81 | One request changes an existing row only by the owner's sweep past expiry, the owner's payment of a pending row, or the owner's submission of an escrow job. |
| `HireRuns.RunEvolves` | app/routers/escrow_hires.py:214-233 | Between any two moments of any run a row's terms never change, a status other than PENDING is final, a recorded job is never replaced and a finished x402 row never changes. |
| `HireRuns.RunsBroadcastOnce` | app/routers/hires.py:205-240 | Of all broadcasts of one hire only the last can have been recorded as mined or refused: a hire is broadcast again only after attempts that ended in an unforeseen exception or an over-long hash. |
| `HireRuns.AtMostOneBroadcast` | app/routers/hires.py:205-240 | In every run a hire whose broadcasts were all recorded was broadcast at most once. |
| `HireRuns.BroadcastAgainIff` | app/db/models/hired_agent.py:64 | The envelope just broadcast is admitted and broadcast once more exactly when its first broadcast ended unrecorded: in an unforeseen exception, or with a hash of more than 66 characters, whose commit fails. |
| `HireRuns.CreateSweepsOverdue` | app/routers/hires.py:67-81 | A successful create leaves its user without any overdue pending x402 hire: exactly those were cancelled. |
| `HireRuns.EscrowSubmitsInAnyRun` | app/routers/escrow_hires.py:84-233 | After any history, an escrow hire is bound by its owner's first submission after any other requests exactly unless another row of the owner records the job or the job id does not fit; in the run that ends with it the row is PAID with that job and transaction, for the agent, provider and chain it was created with. |
| `HireRuns.EscrowNeverSettledHere` | app/routers/escrow_hires.py:126-138 | Escrow rows are never broadcast and never swept, whatever is requested. |
| `HireRuns.ResubmitIsNoOpIff` | app/routers/escrow_hires.py:214-233 | Submitting a recorded job again, documented as a no-op, leaves the row's business columns alone exactly when it repeats the recorded transaction hash. |
| `HireEndToEnd.QuotedIff` | app/routers/hires.py:98-113 | The offer a create works on is the one the endpoint quotes: the A2A endpoint before the agent URL, by GET, and by POST where GET answers 405. |
| `HireEndToEnd.CreateSucceedsIff` | app/routers/hires.py:98-153 | A hire is created exactly when the agent is known, its endpoint answers with a 402 quoting an offer on a supported chain and token, and the quoted wei are below 10^20; otherwise nothing changes. |
| `HireEndToEnd.CreateRecordsQuote` | app/routers/hires.py:85-152 | The row of a created hire and its challenge repeat the quote: payee, wei and chain as quoted, token, name and version of the rail, 300 s to pay, and the overdue hires of the owner are swept with it. |
| `HireEndToEnd.EnvelopeExistsIff` | app/static/js/payment.js:88-130 | A wallet can sign the challenge exactly when payee and token are 40-digit addresses in one letter case or in their EIP-55 spelling, the nonce has 32 bytes, and chain id and times, which the page passes as numbers, are at most 2^53 - 1; the envelope is then the one for the quote. |
| `HireEndToEnd.HonestPaymentVerifiesIff` | app/services/payment.py:388-427 | What the payer signed for the quote, with the payee in any spelling that encodes, verifies exactly inside the signed time window. |
| `HireEndToEnd.PayAdmitsIff` | app/routers/hires.py:187-240 | Pay admits the browser's envelope exactly while the challenge is open and the window contains the present second, and what is broadcast is then the authorization the browser signed, with its signature: payer, payee, wei, window and nonce, on the quoted chain with the rail's token. |
| `HireEndToEnd.OpenHireWaits` | app/routers/hires.py:67-81 | An open hire survives unchanged any other requests by anyone before it expires. |
| `HireEndToEnd.HirePaysInAnyRun` | app/routers/hires.py:85-240 | End to end: after any history, create, sign and pay with any other requests in between is admitted exactly in the window; the log then gains one broadcast, of what the browser signed for the wei and payee the endpoint quoted, with its signature; and the row becomes PAID with the hash exactly when it fits its column; otherwise no row changes. |
| `HireEndToEnd.HonestWindowIsOpen` | app/static/js/payment.js:109-130 | An envelope signed at or after the second of creation is accepted at every moment from signing until 300 s after that second. |
| `HireEndToEnd.LastPartialSecondRejected` | app/services/payment.py:413-420 | Whole-second comparison loses the last partial second before expiry: a challenge still open whose earliest envelope has run out. |
| `HireEndToEnd.AdmittedMatchesQuote` | app/routers/hires.py:187-240 | Conversely, whatever envelope is admitted pays the stored amount to the stored payee on the stored chain, with validAfter < now < validBefore, and recovers to the caller, who owns the pending row. |
| `HireEndToEnd.AdmittedIff` | app/routers/hires.py:170-222 | A payment is admitted exactly when the header decodes to it, the caller's own pending hire is open, and it pays the stored wei to the stored payee on the stored chain and its rail's token (or none), inside its own window, signed by the caller. |
| `HireEndToEnd.BroadcastIsEnvelope` | app/routers/hires.py:218-240 | The log of an admitted payment ends with one broadcast that carries the whole authorization and the signature spelled in the header's payload, on the chain and token the envelope names, through that chain's node; the signature over it is the caller's. |
| `HireAnswers.CreateRefusals` | app/routers/hires.py:85-152 | A create answers 404 exactly for an unknown agent, raises exactly when the endpoint's answer cannot be read or the quoted wei do not fit, and is otherwise refused as unavailable. |
| `HireAnswers.PayRefusals` | app/routers/hires.py:156-240 | A pay request answers what the row alone decides, else what decoding decides, else what verification decides, each leaving everything as it was; past them 502 exactly for a refused broadcast. |
| `HireAnswers.GateRefusals` | app/routers/hires.py:170-215 | The row decides in this order: unknown, another's, not pending, payments unconfigured, expired or without payment data, no rail; an open row is held to its own chain, rail, payee and wei. |
| `HireAnswers.VerifyRefusals` | app/services/payment.py:388-427 | Verification refuses for chain and token before amount, amount before payee, payee before window, and the signature last. |
| `HireAnswers.HexNumberIff` | app/routers/escrow_hires.py:103-124 | A wallet reads as a number exactly when it is hexadecimal digits with an optional sign, prefix and outer white space, and as 0 exactly when those digits are all 0. |
| `HireAnswers.EscrowCreateIff` | app/routers/escrow_hires.py:84-192 | An escrow hire is created exactly when the rail is on, the agent known, its wallet a number other than 0 that encodes as an address, and the budget fits; the row names wallet, chain and budget, and each refusal has its cause. |
| `HireAnswers.SubmitIff` | app/routers/escrow_hires.py:201-233 | A submission succeeds exactly for the caller's own unfinished escrow hire with its recorded job, or a first one that fits and no other row of the owner records; each refusal has its cause. |
| `HireEndToEnd.RefusedStaysRefused` | app/routers/hires.py:170-240 | Retrying never helps: whatever is requested in between, an envelope refused for any reason but being early stays refused on the same site at every later time. |
| `HireEndToEnd.SettlesOnRailTokenIff` | app/services/payment.py:388-402 | The broadcast calls the rail's token exactly when the envelope named a non-zero token; an envelope naming none passes verification and is broadcast to the zero address. |
| `HireEndToEnd.MalformedTokenNeverPaid` | app/services/payment.py:351-385 | A rail whose token is not a 40-digit address, or is in mixed case without its EIP-55 checksum, is never settled, by any envelope. |
| `HireEndToEnd.PolygonHireNeverPaid` | app/config.py:84-90 | With the shipped rails no hire on Polygon is ever admitted: the configured token has 41 digits. |
| `HireEndToEnd.AvalancheHireNeverPaid` | app/config.py:91-97 | With the shipped rails no hire on Avalanche is ever admitted, nor signed in the browser: the configured token differs from its EIP-55 spelling in one letter. |
| `HireEndToEnd.FeeChangesNothing` | app/services/payment.py:310-343 | A well-formed legacy fee by the same payer leaves the pay request's answer, table and broadcast exactly as without it. |
| `HireEndToEnd.DecodeIgnoresFee` | app/services/payment.py:310-343 | Decoding with a well-formed fee differs from decoding without it in the fee field alone. |
| `Settlement.WaitForReceipt` | app/services/payment.py:574-584 | The polling loop decides by the first non-null answer within thirty polls and fails when there is none. |
| `Settlement.Settle` | app/services/payment.py:520-572 | The settlement, from key check to receipt, ends as its outcome function says; exceptions outside the caught kinds escape. |
| `Settlement.SettledIff` | app/services/payment.py:555-584 | A settlement succeeds exactly when sending was answered with a hash and the first answer within thirty polls is a receipt with status 1; the hash reported is the one answered. |
| `Settlement.SentOutcomeIff` | app/services/payment.py:485-584 | A transaction the node took is reported refused exactly when its answer was lost, an error or no hash, no receipt came in thirty polls, or the first answer was a failed poll, a revert or an unreadable status; and raises exactly when the answer to sending or the first to polling is a JSON value that is no object (or an infinite status). |
| `Settlement.SentHireStatusIff` | app/routers/hires.py:218-240 | After an admitted payment whose transaction the node took, the hire is FAILED in exactly the first cases, and still PENDING, to be broadcast again, in exactly the second or when the hash does not fit its column; so FAILED does not mean that nothing was paid. |
| `ChainScan.ScanForward` | app/services/onchain_indexer.py:199-247 | The forward scan asks consecutive disjoint spans of the request size that tile the range, none trimmed, and returns their answers in order: from a node that serves the chain, exactly the range's logs. |
| `ChainScan.TilingIsOneShot` | app/services/onchain_indexer.py:171-222 | For every maximum span of at least one block no span is trimmed by the clamp, and the concatenation is the range's logs in order. |
| `ChainScan.ScanBackward` | app/services/client_bscscan.py:148-193 | The backward scan makes one request per window down from the head, each trimmed to ten blocks, until the block budget is used up, and returns the answers in order. |
| `ChainScan.BackwardCoverage` | app/services/client_bscscan.py:119-123 | A block lies in exactly one window of the backward scan, and the request for it reaches the block exactly when it is among the window's lowest ten. |
| `ChainScan.BackwardCoversAllIff` | app/services/client_bscscan.py:148-193 | The backward scan covers every block of its window exactly when the block range is at most ten; with a larger range blocks, the head among them, are silently skipped. |
| `ChainScan.HireStats` | app/services/client_bscscan.py:195-275 | The running count, volume and sender set are those of the filtered logs. |
| `ChainScan.BackwardStatsAreOneShot` | app/services/client_bscscan.py:238-275 | With a block range of at most ten, hire count, volume and senders of the chunked scan equal those of the whole window. |
| `TransferIndex.CanonAddrIff` | app/services/onchain_indexer.py:93-110 | Two strings canonicalise alike exactly when they spell the same 40 digits up to letter case, one `0x` prefix and outer whitespace; everything else becomes None. |
| `TransferIndex.CanonIdempotent` | app/services/onchain_indexer.py:93-110 | A canonical address is its own canonical form. |
| `TransferIndex.ResolveWallets` | app/services/onchain_indexer.py:250-277 | The loop builds the map of the rows taken in order. |
| `TransferIndex.LastWalletWins` | app/services/onchain_indexer.py:250-277 | The wallet map knows exactly the canonical forms of its rows, and the last row with one wins. |
| `TransferIndex.AgentForIff` | app/services/onchain_indexer.py:250-334 | An address that spells some digits has agent g exactly when g is the agent of the last wallet row that spells the same digits; an address that spells none has no agent. |
| `TransferIndex.TransferTable.StoreLogs` | app/services/onchain_indexer.py:311-345 | The insert loop leaves the table as storing the logs in order with conflicts ignored, and counts every log. |
| `TransferIndex.StoredRow` | app/services/onchain_indexer.py:311-334 | Every row a scan adds is that of the first log of its key: the next ids in log order, the log's transaction, sender and recipient, amount and block, the clock's time of its block, and its recipient's agent. |
| `TransferIndex.StoredAgentIff` | app/services/onchain_indexer.py:250-334 | A stored transfer holds agent g exactly when g is the agent of the last wallet row that spells its recipient's digits. |
| `TransferIndex.StoreConcat` | app/services/onchain_indexer.py:311-345 | Storing two batches of logs one after the other is storing their concatenation. |
| `IndexConvergence.ScansFaithful` | app/services/onchain_indexer.py:311-370 | After any scans each (transaction, from, to) key is stored once, with the block and amount of the first log of that key in its block. |
| `IndexConvergence.ScansKeys` | app/services/onchain_indexer.py:171-247 | After any scans, overlapping or not, the stored keys are exactly those of the logs in the union of the served requests: a request that no provider answers counts as one without logs, and loses its blocks until another scan is served them. |
| `IndexConvergence.ServedCoversRange` | app/services/onchain_indexer.py:199-247 | A scan all of whose requests are answered covers exactly its range, whatever the request size. |
| `IndexConvergence.SameKeySameFacts` | app/db/models/onchain_index.py:84-94 | Rows with the same key agree on block and amount, whichever tables they come from. |
| `IndexConvergence.ScanOrderIrrelevant` | app/services/onchain_indexer.py:311-370 | Two histories that were served the same blocks, in any order, chunks, repetitions and failures, leave the same keys with the same blocks and amounts. |
| `EventCounts.CountsUnchangedIff` | app/services/agent_score.py:226-250 | Appending events leaves event and buyer counts as they were exactly when every appended event in the window repeats a counted transaction and buyer. |
| `EventCounts.ScansCount` | app/services/agent_score.py:226-250 | Over every sequence of scans whose clocks keep blocks on their true side of the cutoff, the counted transactions and buyers are exactly those of the ledger's logs in the served blocks of the window, although each scan appends its own copies and may be served only in part. |
| `EventCounts.CountsIgnoreScanOrder` | app/services/onchain_indexer.py:347-370 | Two histories that were served the same blocks, in any order, overlap and repetition, count the same transactions and buyers, with clocks on the true side of the cutoff. |
| `EventCounts.RescanKeepsCounts` | app/services/onchain_indexer.py:347-370 | Scanning covered blocks again, in any pieces, changes no count, as long as every clock keeps to the true side of the cutoff. |
| `EventCounts.ResolverKeepsSide` | app/services/onchain_indexer.py:137-168 | The interpolating clock of a scan with both edge times keeps to the true side of every cutoff that does not fall strictly inside the scanned range. |
| `EventCounts.FallbackClockRevivesEvent` | app/services/onchain_indexer.py:153-155 | Without that condition it does: copies stamped with the present because both edge lookups failed bring an expired event back into the window. |
| `LinkBackfill.LinkTable.ApplyChunk` | scripts/backfill_link_agents.py:119-149 | Building the matches and executing their updates leaves the table as the updates of the chunk, and returns their number. |
| `LinkBackfill.LinkTable.Run` | scripts/backfill_link_agents.py:183-285 | For every chunk size and limit the keyset loop ends with the one-pass map over a prefix of the ids, the whole table without a limit; fewer than limit + chunk rows are read; linked_now = unlinked_before - still_unlinked, and for non-empty agent ids also the matchable rows, with exit code 0. |
| `LinkBackfill.LinkedAgentIff` | scripts/backfill_link_agents.py:119-149 | After an unlimited run an unlinked row holds agent g exactly when g is non-empty and that of the last wallet row spelling its recipient's digits; otherwise it is left as it was. |
| `LinkBackfill.LinkChunk` | scripts/backfill_link_agents.py:119-172 | Reading and applying the next chunk extends the linked prefix to its last id, rows linked before untouched. |
| `LinkBackfill.LinkKeeps` | scripts/backfill_link_agents.py:119-149 | Linking changes nothing but the agent of unlinked rows whose address has a target. |
| `LinkBackfill.RerunChangesNothing` | scripts/backfill_link_agents.py:152-172 | After an unlimited run no run with the same wallets, whatever its chunk and limit, changes a row or, for non-empty agent ids, meets a matchable one. |
| `LinkBackfill.RunsAddUp` | scripts/backfill_link_agents.py:183-285 | Two limited runs leave what the one that got further would have left alone, so an unlimited run completes whatever a limited one began. |
| `LinkBackfill.StallIff` | scripts/backfill_link_agents.py:260-278 | The stall exit occurs exactly when some row read has a known wallet and every such wallet maps to an empty agent id, so it is unreachable for non-empty ids. |
| `LinkBackfill.StoreThenLink` | app/services/onchain_indexer.py:311-334 | Indexing with no wallets and linking afterwards equals linking what was there and indexing with the wallets known. |
| `LinkBackfill.IndexThenBackfill` | app/services/onchain_indexer.py:250-334 | Over any scans, indexing blindly and then backfilling gives the same table, row by row, as indexing with the wallets from the start. |
| `LinkBackfill.ScansById` | scripts/backfill_link_agents.py:152-172 | Tables built by scans have positive increasing ids, as the keyset needs. |
| `TimestampResolver.EdgesExact` | app/services/onchain_indexer.py:137-168 | The resolver returns both edge timestamps exactly. |
| `TimestampResolver.ResolverMonotone` | app/services/onchain_indexer.py:137-168 | With edges in order, a later block never gets an earlier timestamp. |
| `TimestampResolver.ResolverBetweenEdges` | app/services/onchain_indexer.py:137-168 | With edges in order, every block of the range gets a timestamp between them. |
| `TimestampResolver.HalfSecondOfLine` | app/services/onchain_indexer.py:137-168 | With both edge times known as a and b, every block is stamped a plus the whole number of seconds nearest to (block - first) * (b - a) / (last - first), halves to the even one; with one edge missing every block gets the time of the other, and the present without either. |
| `TimestampResolver.ScanStoresInOrder` | app/services/onchain_indexer.py:303-334 | The rows one scan adds carry timestamps in block order. |
| `WorkerRanges.SizeTestIff` | app/services/onchain_indexer.py:538-540 | The size test fires exactly when every block of the window is covered. |
| `WorkerRanges.PickSampleStart` | app/services/onchain_indexer.py:525-543 | The sampler returns the first of its fifty draws that is uncovered, a block of the window, and None exactly when there is none, as in a covered window. |
| `WorkerRanges.SampleChunkFits` | app/services/onchain_indexer.py:511-603 | Every backfill chunk has 1 to 250 blocks inside the window, begins uncovered, and stays clear of the newest 75 blocks and of those before the first transfer. |
| `WorkerRanges.RealtimeRangeFits` | app/services/onchain_indexer.py:690-707 | Every realtime range has 2 to 75 blocks, ends at or before the head, starts at or after head - 200 and after the newest stored block; there is none exactly when at most one block is new. |
| `WorkerRanges.NewestIs` | app/services/onchain_indexer.py:685-707 | The newest stored block is some row's and no row's is newer; 0 for an empty table. |
| `WorkerRanges.EmptyRangeRepeats` | app/services/onchain_indexer.py:685-707 | A range that yields no transfer, because it holds none or because its request fails, is scanned again and again until the head is more than 200 blocks ahead of its start, and then the blocks up to head - 76 are skipped. |
| `RpcClient.MultiRpcClient.RpcCall` | app/services/rpc_client.py:130-181 | The provider loop, with its early exits, leaves the health and usage dictionaries and the tried providers as one primary-then-fallback attempt. |
| `RpcClient.FallbackIff` | app/services/rpc_client.py:130-181 | A call asks Chainstack first if configured and otherwise Alchemy, with the call's method, and turns to the other exactly when the first was skipped, failed, or answered with neither a result nor an error object; no provider is asked twice. |
| `RpcClient.DataIff` | app/services/rpc_client.py:149-156 | A call yields data exactly when a provider it asked answered with a result. |
| `RpcClient.RunTracked` | app/services/rpc_client.py:103-181 | Over every run on a clock that never goes back: a provider whose turn comes is asked exactly when it is configured and not within 60 s of the latest of three or more failures in a row, and health, usage and failure spacing match the trace. |
| `RpcClient.FailuresTakeTime` | app/services/rpc_client.py:111-125 | n failures since the last success span at least 60 * (n - 3) seconds, the failure counter is n, and usage is the summed cost of the answered requests. |
| `RpcClient.NoRequestWhileCooling` | app/services/rpc_client.py:103-109 | No request of any run goes to an unconfigured or cooling provider. |
| `Rounding.RoundIsNearest` | app/services/wallet_activity.py:130-136 | What is rounded is the nearest whole number, halves to the even one. |
| `Rounding.NearestUnique` | app/services/wallet_activity.py:130-136 | There is one nearest whole number, halves going to the even one, so what is stated as nearest is exact. |
| `Rounding.RoundMonotone` | app/services/wallet_activity.py:130-136 | Half-even rounding keeps order. |
| `Rounding.RoundBetween` | app/services/agent_score.py:149-161 | A value between two whole numbers rounds to a whole number between them. |
| `Rounding.RoundBelowIff` | app/services/wallet_activity.py:130-136 | What rounds below a whole number: everything more than half a unit below it, and the half itself exactly below an odd one. |
| `WalletScore.ScoreInRange` | app/services/wallet_activity.py:158-198 | The wallet-activity score is always in [0, 100], through both roundings. |
| `WalletScore.PillarCentsAre` | app/services/wallet_activity.py:100-136 | A wallet's pillar is, to the cent, 50 points for thirty events, 30 for ten counterparties, in proportion below, and 20 for activity within 30 days, in inverse proportion beyond. |
| `WalletScore.ScoreCentsAre` | app/services/wallet_activity.py:158-198 | The score is, to the cent, five parts of the creator's pillar, three of the owner's and two of the track score; fewer than three events are mixed with three events' worth of 50 points. |
| `WalletScore.NoEventsIsPrior` | app/services/wallet_activity.py:188-198 | Without events the score is exactly 50.00. |
| `WalletScore.ShrinksTowardsPrior` | app/services/wallet_activity.py:188-198 | The score never crosses 50 and lies between 50 and the raw score, up to half a cent. |
| `WalletScore.RecencyMonotone` | app/services/wallet_activity.py:116-121 | The recency term never falls as the days fall towards 1. |
| `WalletScore.ScoreMonotone` | app/services/wallet_activity.py:100-198 | Better counterparties, recency and track score never lower the score, with the same events or, from three events on, with more. |
| `WalletScore.EventsLowerIff` | app/services/wallet_activity.py:100-198 | Better signals with more events lower the score exactly when what the new number of events lets through (0, 1/4, 2/5, then all) of the new raw score's distance from 50 falls more than half a cent, or just half a cent of an odd one, short of the old score; that takes fewer than three events before and a raw score below 50. |
| `WalletScore.BelowPriorIff` | app/services/wallet_activity.py:188-198 | An agent scores below the 50.00 it had without events exactly when more than half a cent of its raw score's shortfall is let through. |
| `WalletScore.AbovePriorNeverLowered` | app/services/wallet_activity.py:100-198 | From a raw score of at least 50, better signals and more events never lower the score. |
| `WalletScore.FirstEventCanLower` | app/services/wallet_activity.py:188-198 | A case of it: the first event takes an otherwise idle agent from 50.00 to 37.71. |
| `WalletScore.TodayScoresAsNever` | app/services/wallet_activity.py:116-121 | A wallet last active today (recency 0) scores as one never active, 20 points below the same wallet a day later. |
| `AgentScore.ProbePillarIs` | app/services/agent_score.py:54-131 | The probe pillar is, rounded, 50 points for an answer, 0.3 for each latency point, 10 for being online and 5 otherwise, and one for each of the first ten skills. |
| `AgentScore.TrackPartsAre` | app/services/agent_score.py:90-108 | The parts of a track record: age by twelfths up to a year, ten points for each of the first ten events and buyers, full recency up to 30 days and 3000 / days beyond; unknown age or recency count 50. |
| `AgentScore.TrackPillarIs` | app/services/agent_score.py:134-146 | The track pillar is the rounded mean of its four parts, all 50 without events. |
| `AgentScore.CompositeIs` | app/services/agent_score.py:149-161 | The composite takes six parts of the probe pillar and four of the track pillar; a missing pillar leaves the other, two missing ones 50. |
| `AgentScore.FetchTrackRecordIs` | app/services/agent_score.py:207-250 | The record counts the transactions and buyers of the last 90 days, months of 30.44 days since creation, never negative, and the whole days since the newest event. |
| `AgentScore.ProbePillarRange` | app/services/agent_score.py:111-131 | The probe pillar is in [0, 100]. |
| `AgentScore.ProbePillarMonotone` | app/services/agent_score.py:54-131 | A better probe never lowers the pillar. |
| `AgentScore.TrackPillarRange` | app/services/agent_score.py:90-146 | The track pillar, where defined, is in [0, 100], and 50 without events. |
| `AgentScore.CompositeBetween` | app/services/agent_score.py:149-161 | The composite lies between its two pillars. |
| `AgentScore.CompositeMonotone` | app/services/agent_score.py:149-161 | The composite grows with each pillar. |
| `AgentScore.LatestIs` | app/services/agent_score.py:226-250 | The newest timestamp is that of some counted event and no counted event is newer. |
| `AgentScore.ScoringFailsIff` | app/services/agent_score.py:90-108 | Scoring an agent divides by zero exactly when it has an event less than a day old. |
| `AgentRows.ChangesAreOwned` | app/services/sync_worker.py:138-238 | A write to an existing row sets only columns of its own writer. |
| `AgentRows.OwnColumnsOnly` | app/services/sync_worker.py:209-238 | Under any interleaving a writer's columns hold what its own writes to that row alone would leave there. |
| `AgentRows.InterleavingIrrelevant` | app/services/sync_worker.py:209-238 | Two schedules that keep each writer's own order leave the same row. |
| `AgentRows.LastWriteWins` | app/services/sync_worker.py:209-238 | After any run each column holds the value of the last write that set it, or its value before the run. |
| `AgentRows.LastWriteOrInsert` | app/services/sync_worker.py:338-351 | A row that was not there appears with its first upsert, whatever was written to it before; from then on each column holds the value of the last write that set it, or the one it was inserted with. |
| `AgentRows.SyncIdempotent` | app/services/sync_worker.py:338-351 | Repeating a sync snapshot changes nothing but the update stamp. |
| `AgentRows.SyncKeepsLocal` | app/services/sync_worker.py:211-238 | A sync of an existing row keeps all ten locally owned columns. |
| `AgentRows.ProbeKeepsOtherKeys` | app/services/probe_worker.py:93-113 | Merging a probe keeps every other key of the health status and records the answer: overall status, whether it responded, when, its HTTP status and its latency. |
| `AgentRows.EnrichLeavesRichIff` | app/services/sync_worker.py:382-391 | The enrichment leaves a row with its current classification exactly when that is not a default or is stored already; a row that became a default stays stale. |
| `SyncWorker.Session.EnrichAndUpsert` | app/services/sync_worker.py:427-525 | A batch writes exactly its accepted agents, counts every token once as upserted, failed or foreign, returns the highest token upserted, and keeps the newest 1,000 failures; an exception outside the three caught kinds leaves exactly what the last commit covered. |
| `SyncWorker.AbortLosesLastHundred` | app/services/sync_worker.py:506-518 | An aborted batch loses exactly the upserts past the last full hundred. |
| `SyncWorker.NewestOfNewest` | app/services/sync_worker.py:112-127 | Trimming after every failure keeps the same newest failures as trimming once at the end. |
| `SyncWorker.BatchKeepsLocal` | app/services/sync_worker.py:211-238 | No batch changes a locally owned column of a row that was there before. |
| `ProbeWorker.Worker.ProbeCycle` | app/services/probe_worker.py:170-186 | A cycle commits all of its probes or, after an exception, none. |
| `ProbeWorker.CycleCommitsIff` | app/services/probe_worker.py:116-186 | A cycle commits exactly when none of its agents had an event within the last day: one such agent undoes the probes of the whole batch. |
| `ProbeWorker.ProbeWrites` | app/services/probe_worker.py:146-167 | A committed probe merges its outcome into the agent's health status, sets health score, both check times and the composite score from that probe, appends its telemetry, and touches no other row or column. |
| `Categories.FirstHitIs` | app/services/categories.py:269-286 | A scan returns the category of the first table row with a matching hint, and none exactly when no row matches. |
| `Categories.MentionsIff` | app/services/categories.py:269-303 | A list hits hints exactly when one of its strings, in lower case, contains one of them; elements that are no strings never do. |
| `Categories.StagesAre` | app/services/categories.py:244-286 | The source category decides by its table, the tags by the first listed category with a hint in them, and the description likewise. |
| `Categories.ProtocolsDecide` | app/services/categories.py:287-303 | Where no stage before decides, the first skill row mentioned by the protocols does, else the first protocol row, and else an agent with the bare protocol `oasf` is `rebalancing` and the rest `other`. |
| `Categories.StagesInOrder` | app/services/categories.py:244-303 | Every input gets a listed category, and an earlier stage that matches decides alone: source category, tags, description, protocols. |
| `Reclassify.Catalog.Assess` | app/services/reclassify.py:81-94 | One pass yields the rows that differ and the exact count of every category that occurs. |
| `Reclassify.Catalog.ReclassifyAll` | app/services/reclassify.py:68-104 | For every batch size each row ends with the category of its own signals, and the report counts all rows and the changed ones. |
| `Reclassify.ChangedIds` | app/services/reclassify.py:93-94 | The updates are exactly the rows whose stored category differs from the category of their own signals. |
| `Reclassify.UpdatesClassify` | app/services/reclassify.py:96-103 | The batched updates of a pass leave every row with the category of its own signals. |
| `Reclassify.SecondPassUpdatesNone` | app/services/reclassify.py:68-104 | A second pass finds nothing to update. |
| `Reclassify.CountsSumToTotal` | app/services/reclassify.py:92-104 | The per-category counts add up to the number of rows. |
| `Reclassify.RowSignalsAre` | app/services/reclassify.py:46-65 | The signals of a row are the source category at `offchain_content.termix.profile.category` if that is a string, the tags at `offchain_content.tags` if they are a list and else the listing's, and its own protocols and description. |
| `Reclassify.ExtractionsAgreeIff` | app/services/reclassify.py:46-65 | The two signal extractions agree wherever the sync's does not raise, which is exactly when the raw metadata is an object or empty. |
| `Reclassify.EnrichAfterPassIsNoOp` | app/services/sync_worker.py:354-391 | After a pass the sync's enrichment of the same data changes nothing. |
| `Reclassify.EnrichedIs` | app/services/sync_worker.py:354-391 | The enrichment leaves the category of the row's own signals unless that is one of the two defaults, and then the stored one. |
| `FlaggedMirror.NormalizeAddresses` | app/services/flagged_sync.py:81-99 | The loop returns the first occurrences of the normalised strings, or the error for a value that is no list. |
| `FlaggedMirror.NormalizedIs` | app/services/flagged_sync.py:81-99 | The list holds each address spelled by some item once, in lower case, and nothing else. |
| `FlaggedMirror.Mirror.Refresh` | app/services/flagged_sync.py:115-142 | Sources are replaced one at a time; a failure keeps those before it and is raised, otherwise the inserted rows are totalled. |
| `FlaggedMirror.MirrorConverges` | app/services/flagged_sync.py:102-142 | After the fetches a source holds exactly the list of its last fetch and other sources what they held. |
| `FlaggedMirror.RefreshKeepsKeys` | app/services/flagged_sync.py:102-112 | Replacing never violates the (address, source) key. |
| `Compliance.Store.RefreshFlags` | app/services/compliance_refresh.py:87-177 | The loops over mirror, agents, flag rows and penalties leave both tables as the verdict of each agent over the mirror, and report how many agents have none, one and both of their wallets listed. |
| `Compliance.RefreshIsMembership` | app/services/compliance_refresh.py:113-143 | After a refresh an agent's flag row says which of its wallets the mirror lists, under which sources, blank wallets never, and its penalty is 0, 30.00 or 50.00 exactly as none, one or both are listed. |
| `Compliance.SourcesConcat` | app/services/compliance_refresh.py:91-97 | The sources named for an address are those of the mirror rows that list it, in mirror order. |
| `Compliance.DistributionIs` | app/services/compliance_refresh.py:120-130 | The penalty distribution is the number of agents with none, one and both of their wallets listed. |
| `Compliance.DistributionSums` | app/services/compliance_refresh.py:120-130 | The penalty distribution counts every agent once. |
| `Compliance.SecondRefreshIsStable` | app/services/compliance_refresh.py:87-177 | A second refresh over the same mirror changes no flag, source list or penalty, only stamp and staleness. |
| `Compliance.RunKeepsPriced` | app/services/compliance_refresh.py:61-76 | Over any run of refreshes, syncs and score writes the stored penalty is 0, 30.00 or 50.00 as its stored flag row has none, one or both flags, or 0 without a row. |
| `Compliance.DisplaysAgree` | app/routers/agents.py:413-456 | In every reachable state the ranking, the score endpoint and the page show the same value for an agent with a score, between 0 and that score. |
| `Compliance.RefreshedDisplays` | app/routers/agents.py:413-456 | After a refresh all three displays of a scored agent show its score less 0, 30.00 or 50.00, as none, one or both wallets are listed, and never less than 0. |
| `Compliance.MirrorsIffListed` | app/services/flagged_sync.py:81-142 | When every source is fetched, the refreshed mirror lists a wallet exactly when some fetched list spells it. |
| `Compliance.FlaggedIffListed` | app/services/compliance_refresh.py:190-204 | End to end: a full refresh flags exactly the agents whose creator or owner wallet some fetched list spells. |
| `ListingWalk.IterAgents` | app/services/client_8004scan.py:407-501 | The walk ends with the agents of a prefix of the pages, gives up exactly at the first six rate-limited requests in a row, and otherwise ends as without rate limits, an element that fails validation included. |
| `ListingWalk.RateLimitsAreTransparent` | app/services/client_8004scan.py:407-501 | Any schedule without six limited requests in a row yields the same agents in the same order, and ends the same way, as none, any other a page-wise prefix, in at most 60,000 requests. |
| `ListingWalk.KeptIs` | app/services/client_8004scan.py:483-494 | A page yields exactly its objects without a chain or of the wanted chain, all of them unless one fails validation, and then those before it. |
| `FeedbackWalk.Feedbacks.FetchPage` | app/services/feedback_sync.py:133-171 | A page is returned unless all three attempts fail. |
| `FeedbackWalk.Feedbacks.SyncAgentFeedbacks` | app/services/feedback_sync.py:192-224 | A walk upserts exactly the reviews it can reach and returns their number, or, when a page stays unreachable, the pages before it, in at most three requests a page. |
| `FeedbackWalk.AskedIsReach` | app/services/feedback_sync.py:192-224 | The pages asked for before the stopping rule fires hold exactly the first min(N, 100 * pages) elements, or of a bare list the first page. |
| `FeedbackWalk.DefaultReach` | app/services/feedback_sync.py:118-130 | With the default cap a walk reaches the first 2,000 reviews, but only the first 100 of an upstream that answers with bare lists. |
| `FeedbackWalk.UpsertedIs` | app/services/feedback_sync.py:174-189 | A walk over distinct reviews stores each as listed and leaves every other row alone. |
| `FeedbackWalk.RerunKeepsRows` | app/services/feedback_sync.py:174-189 | Walking again leaves the same rows but for their stamps. |
| `FeedbackWalk.CountIsStoredIff` | app/services/feedback_sync.py:212-224 | The number returned counts list elements: it is the number of reviews stored exactly when no element is junk. |
| `LoginNonce.AuthTables.IssueNonceTo` | app/services/auth.py:77-101 | Issuing in place overwrites the address's nonce row and leaves everything else. |
| `LoginNonce.AuthTables.VerifyLogin` | app/services/auth.py:104-154 | Verifying in place consumes the nonce and stamps the user on success and changes nothing on any of the refusals. |
| `LoginNonce.RowIsLatestIssue` | app/services/auth.py:77-154 | After any run the nonce row of an address is that of its latest issue, and used exactly when a login of that address has succeeded since. |
| `LoginNonce.LoginSucceedsIff` | app/services/auth.py:104-154 | After any history a login succeeds exactly when the signature recovers to the address and the nonce is that of its latest issue, unused and less than 600 s old. |
| `LoginNonce.OutcomeIs` | app/services/auth.py:104-154 | Within any run, a request logs an address in exactly when it is a login of that address, signed over `Sign in to bnb_agent: <nonce>`, with the nonce that was open after what was requested before it. |
| `LoginNonce.StampIsLatestLogin` | app/services/auth.py:104-154 | After any history a user has a row exactly when the address has logged in, stamped with its latest login. |
| `LoginNonce.LoginsNeverOutnumberIssues` | app/services/auth.py:77-154 | Over every run an address logs in with a nonce at most as often as the nonce was issued to it. |
| `LoginNonce.HonestLoginSucceeds` | app/services/auth.py:77-154 | A wallet that signs the message it was issued logs in within ten minutes, whatever other addresses do meanwhile. |

## Left out

- Requests are atomic steps. Two requests of one hire or one nonce that overlap between read and
  commit, and transfers indexed between two chunks of a backfill, are not part of this model.
- HTTP, DNS and SSRF checks, base64, JSON parsing, retries inside one request, sessions and cookies:
  an answer is a parsed value or a failure. In particular an integer literal of more than 4300 digits
  makes the JSON parser itself raise.
- keccak, secp256k1, EIP-712 hashing and ABI encoding are abstract functions; calldata and gas are
  not modelled, only whether they encode.
- Text is ASCII where it matters: digits, letter case and white space outside ASCII, and the
  underscores Python's `int` accepts, are not modelled.
- `amount_agent`, the display price, and the `raw` copy of an envelope.
- The expiry of an escrow job and the configuration addresses the calldata builders check.
- The dry run of the backfill and its Postgres branch; the modelled branch issues one UPDATE per row.
- Timestamps, scores and the wallet-activity weights are exact rationals; the noise of binary floats
  and of 28-digit decimals is not modelled.
- Chain reorganisations: a block's logs do not change between scans.
- Of the NFT events only transaction, sender, recipient and time are kept; their extraction from logs
  is the same loop as for transfers.
- FailuresTakeTime: the times compared are those at which failures were recorded, on one clock for
  both providers; the client's own clock reads are taken to be in order.
- SecondRefreshIsStable: both refreshes are taken to read the mirror in the same order. The query has no
  order of its own, so the sources of a flag row could be stored in another order the second time.
- Categories are proved for all hint tables; the shipped tables are not spelled out.
- The 58 mirrored column names of an agent row stand for any names; only the ten locally owned and
  the five unmapped columns are told apart.
- EnrichAndUpsert: the reviews mirrored after an upsert, and exceptions of the database or of mapping
  an agent to its row, are not modelled.
- ProbeCycle: the choice of agents, and probes that raise for other reasons than scoring, are not
  modelled; a cycle reads the clock once.
- FetchPage: a status that is neither retryable nor 404 raises at once; it stands with the failures.
- Refresh: totals of fetched elements are not reported, only inserted rows.
- Job status polling, favourites, total scores, endpoint resolution, page rendering and migrations
  would add only easy members.
