# go-tss coordination layer: a verified model

go-tss wraps a threshold-ECDSA library (GG20). The library decides nothing about who takes part,
whose copy of a broadcast is believed, which messages are signed together, or who is blamed; the Go
code around it does. This project models that code in Dafny and proves what it keeps.

Code that works by changing objects is a class whose methods are proved against functions on
values; runs, agreement and blame are then proved about those functions.

| file | what it models |
|---|---|
| `types.dfy`, `sorting.dfy`, `numbers.dfy` | shared names, string order and stable sort, big-endian numbers |
| `votes.dfy` | vote counting on a confirm list, quorums, and when two lists must agree |
| `workers.dfy` | the job pool of `updateLocal` under every schedule |
| `protocol.dfy`, `runs.dfy`, `agreement.dfy`, `disagreement.dfy` | the broadcast confirmation protocol: steps, invariants over all runs, agreement of two nodes and its converse |
| `steps.dfy`, `exchanges.dfy`, `records.dfy` | what each inbound message means, told by confirm lists and copies alone; requests and answers over a run; what a node sends, notes and blames |
| `provenance.dfy` | where applied shares and recorded votes come from; agreement in terms of what peers send |
| `progress.dfy` | exactly when a broadcast that nobody contradicts is applied |
| `node.dfy` | the same protocol as objects: cache items, job runner and node, each handler proved to be one protocol step |
| `blame.dfy`, `blame_runs.dfy`, `blame_reports.dfy` | accepted shares, stored messages and blame sets; what they name after any run, and what of it is reported |
| `batching.dfy` | outgoing shares grouped into bulks |
| `scheduler.dfy`, `message_ids.dfy` | grouping of signing tasks over shared Go slices; the request identifier |
| `library_sort.dfy` | Go's stable sort, with the comparator of a keysign |
| `pairing.dfy`, `encoding.dfy` | lining signatures up with messages; the 64-byte low-S encoding |
| `joinparty.dfy`, `roles.dfy` | forming a party with a leader; choice of leader and party ids |
| `keysign_race.dfy`, `notifier.dfy` | the two goroutines of one keysign call; signatures that arrive from peers |

## Assumptions

- SHA-256, signature checks, decoding of messages and the library's verdict on a share are function
  parameters. Where a lemma needs it, the hash is assumed to have no collision on the inputs compared.
- Confirmations come from members of the party where a lemma takes `RunFrom`; nothing is assumed
  about what they say, and the sender of a broadcast may send different copies to different nodes.
- One inbound message is handled at a time (`common/tss.go:847-872`), and the workers of one bulk
  finish before the next message. When `updateLocal` returns early its queued jobs really go on
  running; here they finish first.
- The order in which Go visits a map is arbitrary: ties in `getHighestFreq`, the order of pools, bulk
  lists and blamed messages are chosen by nobody in particular, and every theorem holds for every choice.
- Time is not modelled. A timeout may happen whenever the code waits.
- `sort.SliceStable` is a stable sort where its comparator is a strict order. The two descending sorts
  of a keysign pass it a comparator that answers true on equal keys (`tss/keysign.go:263-276`), so for them
  Go's algorithm itself is modelled, on values: insertion sort of blocks of twenty, merged by `symMerge`.
- A leader sends one response, the one it decided on, to everybody, as `joinPartyLeader` does; anybody else
  may send anything. `JoinParty.PartiesAgree` needs this.
- Party ids contain no `-`, and different parties have different peers. `Roles.SamePartiesEverywhere`
  derives both from `GetParties` for distinct keys with one peer each.
- The round decoder names rounds of the running protocol only, with a fixed name per index, where a blame
  lemma takes `DecoderOk`. A replay of this node's own broadcast can put the node itself on an accepted
  list; where that matters a lemma counts such a list, or takes `NotListed` or `RunOfOthers`.

## Results that qualify what the code is for

- Two nodes that confirm a share under `frequency >= threshold - 1` (`common/tss.go:409`) are forced to
  agree only if `2 * max(threshold - 1, 1) > (n - 1) + f`. `Votes.LeastParties` gives the least n for each
  residue modulo 3; with no conflicting voter (f = 0) that is n <= 2, 8, 10, 11 or more. For 3 to 7 and for
  9 parties `Disagreement.NodesDisagree` builds two runs that apply different copies of one broadcast.
- A bulk with two good entries (new, and taken by the library) for one round and message can have both
  applied; exactly the bulks without such a pair cannot (`Workers.AtMostOnceIffClean`).
- When `updateLocal` stops at a broken entry, its queued jobs go on. If the same bulk is handed on again before they
  finish, an entry can be applied by both, exactly if it is good and the bulk has a broken one
  (`Workers.RedoneIffBroken`).
- A broadcast that nobody contradicts is applied in whatever order it and enough confirmations arrive, except
  if its sender confirmed it too and it comes last: the check then removes the sender's vote and fails,
  and only another copy or confirmation makes the node check again (`Progress.LoggedIffDue`, `Progress.LastCopyIsHeldBack`).
- When every round is complete, missing-share blame lists everybody else, because no peer is ever cleared
  (`BlamePolicy.MissingShareBlameIsExact`). The callers drop a list longer than the threshold, so in the end
  nobody is reported then, except with two parties and one message (`BlameReports.CompleteReport`). The list
  repeats a party for every message: parties that are silent for all messages of a batch are reported only
  if their number times the number of messages is within the threshold (`BlameReports.SameSendersReport`).
- With several messages the blamed parties depend on which message a map walk meets first, unless all
  messages have the same other senders in their first short round (`BlameRuns.OrderIrrelevantIff`,
  `BlameRuns.OrderMatters`).
- A replay of the node's own broadcast misleads the count of missing-share blame: a round on whose list
  the node itself stands looks complete exactly if one other party is missing, and short if nobody is
  (`BlamePolicy.OwnShareMisleads`).
- A full bulk list whose send failed is sent by the next call at which sending works
  (`OutgoingBatches.FailedSendIsRetried`). It outgrows the equality test, and is then never sent, exactly if
  another share of its key comes before that (`OutgoingBatches.OutgrowsIff`, `OutgoingBatches.OverfullIsStuck`,
  `OutgoingBatches.SurplusIsStuck`); with at most one share per message for a key this does not happen
  (`OutgoingBatches.OneBulkPerKey`).
- A wait for a signature that ends also removes the notifier of a later wait for the same message id: a wait
  stays registered exactly while no other wait for its id begins or ends (`Notifiers.StaysRegisteredIff`).
- The encoded S is low exactly for S <= N + floor(N / 2) (`SignatureEncoding.LowSIff`).
- A keysign call whose notifier cannot be created never returns (`KeysignRace.EndsIffNotifierCreated`).
- A signature batch that is too short is handed to the waiter, and one that is too long ends the process
  if it starts with valid signatures for all messages (`Notifiers.CheckIs`, `Notifiers.PrefixesAreDelivered`).
- The request identifier runs messages and signers together: every request that has both shares its id
  with another one (`MessageIds.EveryIdIsShared`; base64 text of whole 3-byte groups stays base64 text when a key of a
  multiple of four letters and digits is added). `MessageIds.SameIdExactly` says which ones, and ids do
  separate requests with equally many signers, or with messages that end in padding.

## Model

| member | source | states |
|---|---|---|
| Votes.GetHighestFreq | common/tss_helper.go:99-116 | The returned hash is a most frequent vote and the returned count is the number of peers that voted for it; only an empty list fails. |
| Votes.CountsSumToBallots | common/tss_helper.go:103-106 | The counts of all hashes add up to the number of confirmations. |
| Votes.MajorityIsTheOnlyMode | common/tss_helper.go:107-115 | A hash with more than half the votes is the only possible answer, whatever the map order. |
| Votes.ModeExists | common/tss_helper.go:99-116 | Every non-empty confirm list has a most frequent hash. |
| Votes.QuorumIntersection | common/tss.go:403-448 | If the quorums are forced to intersect, two confirm lists that pass the hash check and conflict on at most f peers accept the same hash. |
| Votes.DisagreementWitness | common/tss.go:403-448 | Otherwise there are two confirm lists with at most f conflicts that accept any two given hashes, each with a supporter that, from three parties on, is not a conflicting one. |
| Votes.AgreementIff | common/tss.go:403-448 | Agreement of all passing lists holds if and only if the side condition on n and f does. |
| Votes.LeastParties | conversion/conversion.go:179-185 | The side condition for the threshold ceil(2n/3)-1, solved for n in each residue class modulo 3. |
| Workers.Confluence | common/tss.go:250-315 | For a bulk without repeated shares every schedule of dispatcher and workers ends with the same accepted lists, the same applications and the same error. |
| Workers.OutcomeExists | common/tss.go:114-141 | The pool can always finish. |
| Workers.CleanAppliesOnceSoFar | common/tss.go:282-311 | At every moment of the pool, so also wherever the scan stops, a bulk without repeated shares has had each new share applied at most once and none that was accepted before. |
| Workers.CleanAppliesOnce | common/tss.go:282-289 | Under every schedule such a bulk ends with each new share applied at most once and none that was accepted before. |
| Workers.UncleanAppliesTwice | common/tss.go:282-311 | Two good entries for one share are both applied under some schedule: the duplicate test runs before the workers record. |
| Workers.AtMostOnceIffClean | common/tss.go:282-311 | At most once under every schedule holds exactly for bulks without repeated good shares. |
| Workers.RedoneIffBroken | common/tss.go:262-280 | A bulk handed on again while jobs of an early return are left can have an entry applied by both exactly if the entry is good and the bulk has a broken one. |
| Workers.FailsIffBroken | common/tss.go:262-280 | Under every schedule the call fails exactly if an entry is broken. |
| Runs.StepKeepsInv | common/tss.go:335-401 | Every inbound message keeps the acceptance invariant: cached messages are verified and sit under their key with their hash; every stored or logged broadcast passed the check on the recorded confirm list. |
| Runs.PoolKeepsBooks | blame/manager.go:55-80 | Under every schedule the accepted lists count exactly what the library applied. |
| Runs.CleanPoolAppliesOnce | common/tss.go:282-315 | A clean bulk never makes a share applied twice overall, given the books so far. |
| Runs.StepKeepsOnce | common/tss.go:335-401 | Every inbound message keeps applied-once and the books, if the bulk it hands on is clean. |
| Agreement.AcceptanceAlways | common/tss.go:416-448 | The acceptance invariant holds in every state of every run: stored and logged broadcasts had their own hash as a most frequent vote, threshold-1 votes for it, threshold confirmers and no vote of the owner. |
| Agreement.SharesAppliedAtMostOnce | common/tss.go:262-315 | Over any run with re-delivery, late confirmations and forwarded copies no share is applied twice, and the accepted lists say exactly what was applied. |
| Agreement.AcceptedListsAreDuplicateFree | blame/manager.go:55-80 | No accepted list ever names a party twice. |
| Agreement.TaskDoneClosedAtMostOnce | common/tss.go:359-377 | The done channel is closed once all other parties reported, and never a second time. |
| Agreement.VotesAreFinal | common/tss.go:318-333 | While a key stays cached no step changes another peer's recorded vote; only the vote of the message's sender can disappear. |
| Agreement.CacheKeyInjective | messages/p2p_message.go:75-77 | The cache key determines sender and round. |
| Agreement.NodesAgree | common/tss.go:403-448 | Two nodes, any two runs: messages applied under one key have the same sender, round and bytes, if the quorums are forced to intersect and the hash tells the two messages apart. |
| Provenance.DistinctRunsApplyOnce | common/tss.go:262-315 | If every received bulk has entries with distinct (round, identifier), no share is ever applied twice and accepted lists are duplicate-free, whatever the library decides. |
| Provenance.AppliedSharesAreSourced | common/tss.go:568-602 | In every run each applied share is an entry of a logged broadcast of its sender that passed the check, or of a verified unicast of its sender that was received. |
| Provenance.AcceptedSharesAreSourced | blame/manager.go:55-66 | A party is on an accepted list only for a share that it sent in one of these ways. |
| Provenance.VotesAreReported | common/tss.go:645-675 | Every vote recorded or decided on in any run goes back to a confirmation of that peer, or to a verified broadcast the node hashed itself. |
| Provenance.NodesAgreeDespiteTwoFaced | common/tss.go:403-448 | Agreement by behaviour: two nodes apply the same copy if at most f peers stand for different hashes of the broadcast towards them and f is below the bound. A node that told peers one hash and was later forwarded another copy counts as one. |
| Disagreement.AcceptanceReachable | common/tss.go:645-675 | Every confirm list that passes the check and that a node can have is reached by some run that confirms the message on it, keeps the message for other peers, and has each entry up to the first broken one applied once if the entries are distinct. |
| Disagreement.NodesDisagree | common/tss.go:403-448 | Whenever the side condition fails, two valid copies of one broadcast are confirmed, stored and, where their entries are distinct, applied in some pair of runs with at most f conflicting peers; with three parties or more at two different nodes, neither of them the sender or a conflicting peer. |
| Steps.StepMeans | common/tss.go:335-401 | For every inbound message and every choice: who is told, asked and answered, which vote counts, whether the copy waits, is confirmed and applied, is dropped for that of a winner, or gets its sender blamed, and when it is an error, in terms of the confirm list, the copies and the peers. |
| Exchanges.MissingIsRequested | common/tss.go:604-643 | After every step that concerns a key and leaves it without a copy while some hash has threshold-1 votes, a most frequent hash is noted as requested and exactly its voters were asked for it. |
| Exchanges.AnswerIsTaken | common/tss.go:387-397 | An answer that was asked for is kept or confirmed, unless another hash is as frequent as its own. |
| Exchanges.AnswerConfirms | common/tss.go:738-802 | If the list is long enough without the sender and the hash of the answer is its only most frequent one, the answer is confirmed, stored and applied. |
| Exchanges.MissingCopyIsRecovered | common/tss.go:604-643 | Over runs: a node left without a copy, or whose minority copy was dropped, has requested the only most frequent hash and confirms the copy when the answer comes, however much other traffic comes in between. |
| Exchanges.OutboxIsJustified | common/tss.go:604-735 | In every run each answer goes to the peer that asked and carries a message that was confirmed under the key, each hash is that of a valid broadcast that came and goes to all others but its sender, and each request is for a winner of a list without a copy and goes to its voters. |
| Exchanges.QueriesAreAnswered | common/tss_helper.go:242-258 | A peer that asks for a stored message is answered with it. |
| Exchanges.BroadcastsAreTold | common/tss.go:708-735 | All other peers but the sender hear the hash of a valid broadcast that comes. |
| Records.FinishedHaveReported | common/tss.go:359-377 | After any run the finished peers are exactly those that reported. |
| Records.ClosedWhenAllReported | common/tss.go:359-377 | The channel is closed exactly if as many peers reported as there are other parties. |
| Records.UnicastSendersAreNoted | blame/manager.go:108-119 | After any run the noted peers of a round are the senders of its verified unicast shares, in order. |
| Records.BlamedWereSuspect | common/tss.go:568-602 | In every run whoever is blamed for a broadcast had voted for its own message or sent a copy that was checked when no hash had enough votes; a minority copy blames nobody. |
| Progress.LoggedIffDue | common/tss.go:416-448 | In every run without a rival copy or a vote for another hash, duplicates, requested forwards and other messages included, a broadcast is confirmed exactly if it was delivered, enough peers other than its sender confirmed it, and it is not so that the sender confirmed it and its first copy came last. |
| Progress.EveryOrderApplies | common/tss.go:645-675 | So the message and a confirmation of each other peer but the sender suffice in any order. |
| Progress.LastCopyIsHeldBack | common/tss.go:424-431 | In every instance some run in which everybody confirms a message, its sender too, and then the message comes, does not apply it. |
| TssNode.JobRunner.DoTssJob | common/tss.go:114-141 | Finishing any queued job is a step of the job pool. |
| TssNode.JobRunner.Scan | common/tss.go:262-312 | Looking at the next entry is a step of the job pool: broken entries stop the scan, duplicates are skipped, others are queued. |
| TssNode.JobRunner.RunAll | common/tss.go:250-315 | Dispatcher and workers together end in an outcome of the pool. |
| TssNode.TssCommon.UpdateLocal | common/tss.go:225-316 | Notes a unicast sender, then has the accepted shares and error of some outcome of the pool. |
| TssNode.TssCommon.GetMsgHash | common/tss.go:403-414 | Succeeds only with a most frequent hash of at least threshold-1 votes; fails as inconsistent only if no hash has that many, and otherwise only on an empty list. |
| TssNode.TssCommon.HashCheck | common/tss.go:416-448 | Verdict and remaining confirm list are those of the value model: too few, owner removed, no consistent hash, minority copy, or passed. |
| TssNode.TssCommon.RequestShareFromPeer | common/tss.go:604-643 | Remembers the requested hash and asks exactly the peers that confirmed it. |
| TssNode.TssCommon.ApplyShare | common/tss.go:568-602 | The new state and error are those of the value model for choices the code can make; the cache stays valid. |
| TssNode.TssCommon.CheckDupAndUpdateVerMsg | common/tss.go:318-333 | A confirmation is new exactly if this peer is not on the confirm list. |
| TssNode.TssCommon.ProcessVerMsg | common/tss.go:645-675 | Records the vote, then applies the cached message or requests the missing one, as in the value model. |
| TssNode.TssCommon.ReceiverBroadcastHashToPeers | common/tss.go:708-735 | The hash goes to all peers except this node and the sender; nothing is sent if there are none. |
| TssNode.TssCommon.ProcessTSSMsg | common/tss.go:738-802 | Invalid shares change nothing; unicasts go to the local parties; broadcasts are cached, voted for and checked. |
| TssNode.TssCommon.ProcessTaskDone | common/tss.go:359-377 | A repeated report is an error; the last other party closes the channel. |
| TssNode.TssCommon.ProcessRequestMsgFromPeer | common/tss_helper.go:242-272 | Answers with the stored message of the key, if any. |
| TssNode.TssCommon.ProcessForward | common/tss.go:378-397 | A forwarded copy is processed only if its hash was requested, and only once. |
| TssNode.TssCommon.ProcessOneMessage | common/tss.go:335-401 | Every inbound message takes the objects exactly one step of the protocol. |
| BlamePolicy.CountSeesMissing | blame/policy.go:155-159 | The count test len+1 == n holds exactly if all other parties delivered. |
| BlamePolicy.MissingShareBlameByCount | blame/policy.go:153-196 | Those blamed are the others that did not deliver in the first round in which not exactly one party is absent; if there is no such round, all others. |
| BlamePolicy.MissingShareBlameIsExact | blame/policy.go:153-196 | If no list names this node, those blamed are the other parties absent from the first incomplete round, at least one of them; if no round is incomplete, all others. |
| BlamePolicy.OwnShareMisleads | blame/policy.go:155-159 | With this node on the list the count is satisfied exactly if one other party is missing, and never if nobody is. |
| Managers.RoundMgr.GetByRound | blame/round_mgr.go:43-53 | Lists each sender as often as it has stored messages of the round. |
| Managers.Manager.UpdateAcceptShare | blame/manager.go:55-66 | Appends the sender to the list of the round. |
| Managers.Manager.CheckMsgDuplication | blame/manager.go:68-80 | True exactly if the sender is on the list of the round. |
| Managers.Manager.SetLastUnicastPeer | blame/manager.go:108-119 | Appends the peer to the list of the round name. |
| Managers.Manager.AccPubKeysFromPartyIDs | conversion/conversion.go:61-75 | Public keys in order; fails exactly if an id is unknown. |
| Managers.Manager.GetBlamePubKeysNotInList | blame/policy_helper.go:27-53 | The keys of exactly the non-local parties whose peer is not listed, each once; fails exactly if one of them has no key. |
| Managers.Manager.GroupByMessage | blame/policy.go:140-151 | One table per message identifier, holding exactly its accepted lists. |
| Managers.Manager.ClearFirstShort | blame/policy.go:155-184 | Clears the senders of the first short round and this node; flags unicast by round index. |
| Managers.Manager.TssMissingShareBlame | blame/policy.go:135-198 | For the tables of the accepted shares and some order of the messages, the keys of a walk: for each message those that no message so far has cleared, each once; and whether some short round is a unicast one. |
| Managers.AddBlameNodes | blame/blame.go:59-74 | Adds each new node once, after the nodes that are there. |
| Managers.Manager.AddMissingShareBlame | keysign/tss_keysign.go:248-260 | Reports each node of the missing-share list once if the list is not longer than the threshold, and nobody otherwise; nobody also on an error, which only a party without a key causes. |
| Managers.Manager.TssTimeoutBlame | blame/policy.go:15-45 | The keys of nobody if no message of the round is stored, else of exactly the other parties without one, each once. |
| BlameRuns.SharesOfPartiesAlways | common/tss.go:262-315 | In every run accepted lists name parties of the instance, under rounds of this protocol. |
| BlameRuns.SharesOfOthersAlways | common/tss.go:262-315 | In runs in which nobody replays this node's own messages to it they name other parties only. |
| BlameRuns.RunsOfOthersDoNotList | common/tss.go:262-315 | So no list names this node then. |
| BlameRuns.RunsFillTables | blame/policy.go:135-151 | After any run, replays of own messages included, the tables of missing-share blame are well formed and duplicate-free. |
| BlameRuns.OneMessageBlameByCount | blame/policy.go:135-198 | After any run with one message identifier the result is exact in terms of the counts: the others that did not deliver in the first round in which not exactly one party is absent, with the flag of that round. |
| BlameRuns.OneMessageBlameIsExact | blame/policy.go:135-198 | After any run with one message identifier in which no list names this node the result lists exactly the others missing from the first incomplete round, each once and at least one, with the flag of that round; with no incomplete round, all others. |
| BlameRuns.FlagIsExact | blame/policy.go:155-175 | With any number of messages the unicast flag is set exactly if the first short round of one of them is the second of a keygen or one of the first five of a keysign. |
| BlameRuns.OneStoredPerSender | blame/round_mgr.go:37-41 | In reachable states at most one message per sender and round is stored, under the key of that sender and round. |
| BlameRuns.StandbyListsOnce | blame/round_mgr.go:43-53 | After any run no sender is listed twice for a round. |
| BlameRuns.TimeoutBlameIsExact | blame/policy.go:15-45 | After any run a party is blamed exactly if some message of the round was confirmed and none under the key of that party. |
| BlameRuns.WalkListsUntilCleared | blame/policy.go:138-196 | A party is listed once for each message that is visited before one clears it. |
| BlameRuns.CanBlameIff | blame/policy.go:153-196 | The sets of parties that some visiting order blames are exactly those that single messages do not clear. |
| BlameRuns.OrderIrrelevantIff | blame/policy.go:135-198 | All visiting orders blame the same parties exactly if all messages have the same other senders in their first short round, one in which not exactly one party is absent. |
| BlameRuns.RunsBlameAlikeIff | blame/policy.go:135-198 | The same after any run, whose lists and tables meet the premises. |
| BlameRuns.OrderMatters | blame/policy.go:135-198 | In every instance, a run that takes the first share of one party for one message and of another party for another ends where two visiting orders blame different parties. |
| BlameReports.ReportIsOfSomeOrder | keysign/tss_keysign.go:248-260 | Those finally reported are, for some order of the messages, the parties its first message does not clear if the walk has at most threshold entries, repetitions counted, and nobody otherwise. |
| BlameReports.EveryOrderReports | blame/policy.go:153-196 | Every order of the messages can decide the report. |
| BlameReports.SameSendersReport | keysign/tss_keysign.go:256-259 | If all messages have the same other senders in their first short round, the remaining parties are reported exactly if their number times the number of messages is within the threshold. |
| BlameReports.CompleteReport | keygen/tss_keygen.go:194-204 | If no round is short, somebody is reported exactly if there are two parties and one message. |
| BlameReports.OneMessageReport | keygen/tss_keygen.go:194-204 | After any run with one message the others missing from the first short round are reported, each once, exactly if they are not more than the threshold. |
| BlameReports.RunsReport | keysign/tss_keysign.go:248-260 | After any run with several messages the report is decided by the message visited first and the entries of the whole walk. |
| OutgoingBatches.RoundNameIsType | common/tss.go:535-552 | The round name of a bulk is the type of its shares, for types without a colon. |
| OutgoingBatches.LanesByType | common/tss.go:512-535 | For types without a colon: the shares sent and waiting in a unicast lane are exactly those of its type for its destination, in order, with all their data, and in a broadcast lane those of its type. |
| OutgoingBatches.OneDestination | common/tss.go:450-497 | All entries of a bulk are of one kind and for one destination, so sending it to that of the first entry shows nobody a share for another party. |
| OutgoingBatches.ShareLaneIff | common/tss.go:526-533 | Two unicast shares share a list exactly if they have the same type and first destination. |
| OutgoingBatches.Conservation | common/tss.go:505-566 | For every key the shares produced are the sent bulks followed by the waiting list, in order. |
| OutgoingBatches.BulksAreFull | common/tss.go:538-544 | Every bulk has msgNum entries, and every sent or waiting entry was produced for its key. |
| OutgoingBatches.AlwaysShortIff | common/tss.go:538-544 | Waiting lists stay below msgNum exactly in the runs in which no due send fails. |
| OutgoingBatches.FailedSendIsRetried | common/tss.go:536-563 | A full list whose send failed is sent by the next call at which sending works, for whatever share that call is, unless a share of its own key comes first. |
| OutgoingBatches.OutgrowsIff | common/tss.go:538-544 | A list outgrows msgNum exactly if a share of its key comes while it is full. |
| OutgoingBatches.OneBulkPerKey | common/tss.go:536-563 | With at most msgNum shares for a key all of them wait, or all left as one bulk, whatever sends failed. |
| OutgoingBatches.OverfullIsStuck | common/tss.go:538-544 | A list that has outgrown msgNum is never sent again. |
| OutgoingBatches.SurplusIsStuck | common/tss.go:536-563 | For every share and every later run: msgNum + 1 copies of it while sending fails are never sent. |
| OutgoingBatches.Batcher.ProcessOutCh | common/tss.go:505-566 | One call moves every lane exactly as the value model says, whatever the visiting order; every bulk goes to the destination of its first entry under the round name of its lane. |
| Sorting.LeqIsLexicographic | p2p/leader_provider.go:24-24 | Strings are compared as in Go: a prefix comes first, else the first difference decides. |
| Sorting.SortedUnique | network/keysign.go:164-166 | A multiset of strings has one sorted listing. |
| Sorting.StableSortSorts | network/keysign.go:164-166 | The sort yields a sorted permutation. |
| Sorting.StableSortIsStable | network/keysign.go:164-166 | Elements with equal keys keep their order. |
| SigningQueue.TasksConserved | network/keysign.go:127-177 | Over any interleaving of arrivals and ticks each submitted task is in exactly one batch or waiting, and batches have 1 to 15 tasks. |
| SigningQueue.TickTakesLeast | network/keysign.go:153-173 | In every run a tick hands out the fifteen least tasks, sorted, if more are waiting, and all of them in the order of arrival otherwise. |
| SigningQueue.DrainTime | network/keysign.go:149-175 | Without arrivals a queue of length L is empty after n ticks exactly if n >= ceil(L/15). |
| SigningQueue.NodesBatchAlike | network/keysign.go:153-173 | In runs in which two nodes get the same messages between ticks, in any order, they hand out batches with the same messages in the same sequence, and keep the same messages waiting. |
| SigningQueue.Keysign.Append | network/keysign.go:144-144 | Go's append on a window: in place or in a new array, never touching earlier elements. |
| SigningQueue.Keysign.Enqueue | network/keysign.go:134-147 | The task is appended to its pool; slices already handed out keep their contents. |
| SigningQueue.Keysign.SortPool | network/keysign.go:164-166 | Sorting the waiting tasks in place leaves other pools and handed-out slices alone. |
| SigningQueue.Keysign.HandOver | network/keysign.go:169-171 | The first tasks go to a signer, the rest of the same array keeps waiting. |
| SigningQueue.Keysign.DispatchPool | network/keysign.go:153-172 | One pool makes one tick; the others are unchanged. |
| SigningQueue.Keysign.ProcessTick | network/keysign.go:148-175 | Every pool makes exactly one tick, in whatever order; no handed-out slice changes. |
| MessageIds.RequestToMsgId | tss/tss.go:145-166 | Sorts both lists in place and hashes their concatenation; an empty request is an error. |
| MessageIds.JoinInjective | tss/tss.go:153-153 | Joining by commas loses nothing if parts are non-empty and have no comma. |
| MessageIds.SameIdExactly | tss/tss.go:145-166 | For signer keys of one length, two requests that the hash does not confuse share an id exactly if one is the other with its least keys, as many as it has more, moved to the end of the joined messages. |
| MessageIds.SameIdIff | tss/tss.go:145-166 | So with equally many signers ids are equal exactly if messages and signers are both the same multisets. |
| MessageIds.SameSignersIdIff | tss/tss.go:145-166 | For one list of signers, whatever their keys look like, ids are equal exactly if the messages are the same multiset. |
| MessageIds.PaddedIdsSeparate | tss/tss.go:145-166 | If every message ends in a character that no key has (base64 text of 32 bytes ends in '='), ids are equal exactly if messages and signers are the same, with any numbers of signers. |
| MessageIds.EveryIdIsShared | tss/tss.go:150-165 | Every request with a message and a signer shares its id with a different one: its least signer key moved to the end of its greatest message. |
| MessageIds.NodesRequestTheSameIds | network/keysign.go:180-194 | Nodes whose queues got the same messages derive the same id for each batch. |
| Numbers.ToBytesRoundTrip | network/keysign.go:116-117 | The byte form of a number decodes to it. |
| Numbers.ToBytesLength | network/keysign.go:116-117 | The byte form fits k bytes exactly if the number is below 256^k. |
| LibrarySort.SymMergeSorts | tss/keysign.go:263-276 | Go's in-place merge joins two descending lists to a descending permutation of both, with the keysign comparator. |
| LibrarySort.StableSortDescendingSorts | keysign/tss_keysign.go:177-185 | Block insertion sort and all merge rounds together yield a descending permutation, for any length. |
| LibrarySort.SortDescending | tss/keysign.go:263-276 | The array ends up as that function of its old contents, which is a descending permutation. |
| Pairing.DescendingUnique | keysign/tss_keysign.go:177-185 | A multiset of integers has one descending listing. |
| Pairing.IndependentSortsAlign | tss/keysign.go:263-276 | After two separate sorts the signature at each index has the hash integer of the message there, also with equal integers. |
| Pairing.HashToIntReads | common/tss_helper.go:57-70 | The integer of a hash of up to 32 bytes is its big-endian value, and what follows 32 bytes is ignored. |
| Pairing.BatchSignatures | tss/keysign.go:376-392 | Pairs messages and signatures by index. |
| Pairing.SignBatch | keysign/tss_keysign.go:177-185 | Sort, sign, sort, pair: the response has one entry per message, each signature on the hash integer of its message. |
| Pairing.Respond | network/keysign.go:219-245 | Each signing task gets the first signature for its message, or a not-found answer. |
| Pairing.FirstMatchFinds | network/keysign.go:219-245 | The answer is the signature of the first entry for the message; not found exactly if there is none. |
| Pairing.EveryTaskIsSigned | network/keysign.go:219-245 | With a proper response and an injective encoding every signing task gets a signature on its own message's hash. |
| SignatureEncoding.GetSignature | network/keysign.go:96-125 | A decode error exactly if a part does not decode; otherwise out of range exactly if R >= 2^256 or S >= N + 2^256, and else 64 bytes whose halves decode to R and to S, N - S or S - N. |
| SignatureEncoding.EncodeSerializes | network/keysign.go:109-124 | For R < 2^256 and 0 < S < N there are always 64 bytes, with R and the low one of S and N - S. |
| SignatureEncoding.EncodingDecodes | network/keysign.go:119-124 | The 64 bytes decode to R and to the written S. |
| SignatureEncoding.LowS | network/keysign.go:109-113 | For 0 < S < N the written value is S or N - S and at most floor(N/2). |
| SignatureEncoding.LowSIff | network/keysign.go:109-113 | For every S at all: what is written is low exactly if S <= N + floor(N/2). |
| SignatureEncoding.ReencodingIff | network/keysign.go:96-125 | Encoding the decoded halves again changes nothing exactly if S <= N + floor(N/2). |
| PeerStatuses.LeaderCounts | p2p/peer_status.go:78-106 | With a leader the request count is the number of online peers, never above the threshold, and one notification is due exactly when it is reached. |
| PeerStatuses.LeaderCountsFirst | p2p/peer_status.go:78-106 | For every list of reports the online peers of a leader are exactly the first threshold different listed peers that reported, in order of arrival, and all of them if they are fewer. |
| PeerStatuses.EachPeerSignalsOnce | p2p/peer_status.go:78-106 | Without a leader each listed peer causes one notification, however often it reports. |
| PeerStatuses.SignalsFitChannel | p2p/party_coordinator.go:92-144 | Notifications never exceed the channel's capacity, so no send blocks. |
| PeerStatuses.PeerStatus.UpdatePeer | p2p/peer_status.go:78-106 | New status, answer and error are those of the value model. |
| PeerStatuses.PeerStatus.GetPeersStatus | p2p/peer_status.go:62-76 | Lists online and offline peers, each once. |
| JoinParty.FormParty | p2p/party_coordinator.go:452-477 | Publishes the online peers and the leader, as success exactly if there are threshold+1; publishes nothing if the signature arrived. |
| JoinParty.JoinPartyMember | p2p/party_coordinator.go:382-413 | A member's outcome from the response it holds and the note it heard. |
| JoinParty.PartySize | p2p/party_coordinator.go:456-477 | A successful party has exactly threshold+1 distinct participants with the leader; success exactly if the threshold was reached. |
| JoinParty.LeaderDecidesByRequests | p2p/party_coordinator.go:416-478 | In every run a leader without the signature joins, and tells everybody so, exactly if threshold different listed peers have asked by then; its party is the first of them and itself. |
| JoinParty.SignedLeaderIsSilent | p2p/party_coordinator.go:451-453 | A leader that has the signature publishes nothing. |
| JoinParty.MemberJoinsIff | p2p/party_coordinator.go:382-413 | In every run a member joins exactly if the leader joined, its response has come and no signature has, and then the leader's party; the other outcomes are told apart as exactly. |
| JoinParty.KeygenPartyIsComplete | p2p/party_coordinator.go:456-477 | With threshold n-1 a successful party is everybody. |
| JoinParty.StepKeepsInv | p2p/party_coordinator.go:67-90 | Requests, decisions, deliveries and forged responses keep: members only hold what the leader published. |
| JoinParty.PartiesAgree | p2p/party_coordinator.go:326-478 | In every run any two nodes that join, join the same full party. |
| KeysignRace.SendsNeverBlock | tss/keysign.go:309-345 | In every interleaving at most two notes are sent, a sender finds a free slot in an open channel, and the generator runs only after registration. |
| KeysignRace.ReturnsReceived | tss/keysign.go:346-358 | The received response is returned exactly if the waiter succeeded; an empty one only if this node was not to sign. |
| KeysignRace.WaiterEndsBy | tss/keysign.go:24-36 | In every interleaving the waiter has signatures exactly if it took a batch that is not empty, and an empty batch, the timeout and a note of the generator are told apart. |
| KeysignRace.ReturnsByEvents | tss/keysign.go:340-358 | The call returns the received batch exactly if one that is not empty was taken, an empty response exactly if none was and this node was not to sign, and else the generator's result. |
| KeysignRace.HeardStopsSigning | p2p/party_coordinator.go:366-395 | Once the join loop heard that the signature arrived, a batch was taken, and this node does not sign. |
| KeysignRace.RunsAreShort | tss/keysign.go:320-345 | Every run has at most seventeen steps. |
| KeysignRace.EndsIffNotifierCreated | keysign/signature_notifier.go:199-216 | A run that can go no further has returned exactly if message id, messages and pool key are all non-empty. |
| Notifiers.CheckIs | keysign/notifier.go:61-83 | A batch passes exactly if it is non-empty, no longer than the messages, and each signature is valid for the message at its index; it ends the process exactly if it is longer and starts with valid signatures. |
| Notifiers.PrefixesAreDelivered | keysign/notifier.go:61-83 | Every non-empty prefix of a passing batch passes. |
| Notifiers.Decode | keysign/signature_notifier.go:78-88 | The decoded batch is empty unless the keysign succeeded; a broken part drops it. |
| Notifiers.Notifier.ProcessSignature | keysign/notifier.go:61-83 | Puts the batch in the channel exactly if it passes and the slot is free. |
| Notifiers.SignatureNotifier.Register | keysign/signature_notifier.go:199-205 | A new notifier replaces any older one for the message id; fails on empty arguments. |
| Notifiers.SignatureNotifier.RemoveNotifier | keysign/signature_notifier.go:192-196 | Unregisters whatever is under the message id. |
| Notifiers.RegisteredIff | keysign/signature_notifier.go:89-103 | A notifier is registered from the begin of its wait to the next batch that passes, end of any wait, or begin of the next one. |
| Notifiers.StaysRegisteredIff | keysign/signature_notifier.go:192-216 | A wait that has neither ended nor got its batch is registered exactly if no other wait for its message id has begun or ended since. |
| Notifiers.SignatureNotifier.HandleStream | keysign/signature_notifier.go:89-103 | Never blocks; a passing batch reaches the registered notifier and ends its registration; nobody gets a second batch. |
| Decimal.AtoiOfItoa | conversion/conversion.go:124-124 | Decimal numerals are read back, so party ids of different places differ. |
| Decimal.FormatIntInjective | p2p/leader_provider.go:19-19 | The text of a block height determines it, sign included. |
| Roles.LeaderNode | p2p/leader_provider.go:12-26 | The leader is a listed peer with the least hash, the last such in the list; fails exactly on empty arguments. |
| Roles.LeaderAgreesIff | p2p/leader_provider.go:12-26 | All orders of the list elect the same peer exactly if no two different peers share the least hash. |
| Roles.OneLeader | p2p/leader_provider.go:12-26 | If the hash tells the peers' tickets apart, two orders of the list elect the same leader. |
| Roles.GetParties | conversion/conversion.go:110-136 | Sorts the keys; each party's id is the place of its key; the numeric keys of the parties ascend; fails exactly on a bad key or a missing local key. |
| Roles.SetupPartyIDMap | conversion/conversion.go:77-83 | Each party under its id, a later one replacing an earlier. |
| Roles.SetupIDMaps | conversion/conversion.go:99-108 | The peer of every party under the same id; fails exactly if a party has none. |
| Roles.IdMapsHoldPeers | conversion/conversion.go:77-108 | For the parties of GetParties, however ordered, these two maps together hold the peer of each key under the place of the key. |
| Roles.PlaceIsRank | conversion/conversion.go:110-136 | Among distinct keys the place of a key is the number of smaller keys. |
| Roles.PartyIdIsRank | conversion/conversion.go:99-136 | The id map holds the peer of every key under the rank of the key. |
| Roles.SamePartiesEverywhere | conversion/conversion.go:99-136 | Nodes with the same distinct keys in any order have the same party map, one party per key, with ids free of the separator. |

## Left out

- The threshold-signature library, ECDSA, curve and bech32 code, real SHA-256, JSON and protobuf: foreign code, taken as parameters.
- Streams, deadlines, retries, subscriptions and the bridge, HTTP, configuration and persistence code: I/O around the modelled logic.
- Blame for invalid shares (`common/tss.go:184-222`) and the refusal of known culprits (`common/tss.go:295-309`): both depend on party pointers owned by the library.
- Library failures in `updateLocal` other than a refused share, and jobs that outlive an early return.
- Delivery by `renderToP2P`: sent messages are recorded in order, not delivered; runs take arbitrary inputs instead.
- Wrong-share, node-sync and unicast blame (`blame/policy.go:48-130`): single look-ups or filters.
- The join party without a leader beyond its peer status: its loop waits on a channel that nobody signals early.
- Repeated responses of a leader: the member's notification channel has one slot (`p2p/party_coordinator.go:67-90`); only notifications from peer reports are proved not to block.
- Failed keysign calls of the scheduler, which deliver no response (`network/keysign.go:204-208`, `network/keysign.go:265`).
- Recovery bytes and base64 of signatures beyond being carried along with the signature.
- Workers.Confluence: a refused share is only skipped; the code also remembers culprits, which can stop a later scan early (`common/tss.go:302-309`).
- TssNode.JobRunner.DoTssJob: does not note blame for a refused share (`common/tss.go:132-136`).
- TssNode.JobRunner.Scan: does not refuse known culprits (`common/tss.go:302-309`).
- TssNode.JobRunner.RunAll: queued jobs finish also when the scan stopped early, where the code returns at once.
- TssNode.TssCommon.UpdateLocal: leaves out the same as its job runner.
- Agreement.SharesAppliedAtMostOnce: jobs that an early return leaves behind finish before the next message.
- Provenance.DistinctRunsApplyOnce: makes the same assumption.
- JoinParty.StepKeepsInv: the leader sends everybody the response it published.
- JoinParty.PartiesAgree: assumes the same.
- SignatureEncoding.GetSignature: numbers above 32 bytes end in a slice panic in Go; the model reports an error value.
