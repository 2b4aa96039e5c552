# bluek, modelled in Dafny

bluek is an asyncio Bluetooth Low Energy client that speaks ATT over an L2CAP socket. This project models
its protocol core and proves what the core keeps:

* **Transactions** (`att.dfy`, `att_client.dfy`, `att_system.dfy`, `transactions.dfy`). The class `ATTClient`
  has the fields of the source's class and is proved, method by method, to do what the functions on the value
  `Client` say. `AttSystem` puts that client, two FIFO channels and a peer into one transition system. A step is
  what happens between two awaits of a coroutine, or one event loop callback, so "the future is done but its
  coroutine has not resumed" is a state of its own. Every result about runs is for all step sequences.
* **Pairing** (`pairing.dfy`, `safe_calls.dfy`, `late_answers.dfy`). Answers pair with requests under every
  interleaving with a FIFO server. Where the bearer may be dirty, after a timeout, a cancellation or an exchange that
  is still to be refused, an exact condition that can be looked at before a request says whether it will pair.
* **MTU agreement, traffic** (`mtu_agreement.dfy`, `exchange_safety.dfy`, `exchange_results.dfy`, `traffic.dfy`). Both
  sides settle on one MTU even when both start an exchange, one is refused, or other transactions time out; the exact
  conditions under which an exchange may be started, and given up; and what every call of `exchange_mtu` returns or
  raises. Indications, the confirmations and MTU responses on the wire, and handler calls are conserved.
* **Discovery** (`gatt.dfy`, `paging.dfy`, `att_link.dfy`, `discovery.dfy`, `discovery_exact.dfy`,
  `discover_loop.dfy`, `gatt_server.dfy`). A ghost attribute database says what a server holds, and a predicate
  says what a conformant server may answer: any non-empty prefix of the matching attributes whose entries have one
  length. Discovery returns exactly the tree of the database. An executable server shows that the predicate
  can be met for every database and every choice of page sizes.
* **Discovery and reads with any peer** (`page_contents.dfy`, `failures.dfy`). What a result consists of, on the bytes
  of the answers, whatever the peer sends; and that nothing but the answers that mean "no more" ends discovery or a
  read early: any other failure of any of their transactions is what they raise.
* **Long reads** (`long_read.dfy`, `read_race.dfy`, `read_session.dfy`, `read_safety.dfy`). When `read()` returns the
  whole value, exactly, in terms of the MTU it noted and those that the server had at each of its transactions. A
  session is one `read()` inside a run, from its call through its last Read Blob Request; and, exactly, what must hold
  before the call so that no session truncates the value.
* **Both inside runs** (`traces.dfy`, `interleaving.dfy`). Discovery and reads are proved on a link; here their
  transactions are exchanges of a run with whatever traffic in between, and the results are the same.
* **Client lifecycle** (`connect.dfy`, `lifecycle.dfy`, `subscriptions.dfy`, `service_index.dfy`,
  `tree_order.dfy`). The deadline-bounded connect loop, the disconnect latch across three objects, the subscription
  ledger against the CCCDs of the server over any number of connections, and the lookup index.
* **Codecs** (`bytes.dfy`, `hex.dfy`, `python_int.dfy`, `uuids.dfy`, `addresses.dfy`, `mgmt.dfy`). UUIDs, addresses,
  management packets, advertising data and device-found reports.

Loops of the source are loops here (`Link.CollectPages`, `DiscoverTree`, `ReadValue`, `Connector.Retry`,
`ParseEir`, the constructor of `ServiceCollection`), each proved equal to a recursive function about which the
lemmas then speak. A server is a `Policy`: the outcome of the n-th transaction on the link, given its request, so a
statement over all policies covers servers that adapt or change their page size from request to request. Handles in
requests have the 16-bit type `u16`, so every request built, for any peer, comes with a proof that its handles fit.

Three places where the code and its own comments or intentions part, each with the exact condition:

* The comment at `bluek/_att.py:265-269` says that the MTU noted by `read()` is the one that sized the first
  response. It is noted when the response is consumed, and a peer MTU exchange may have landed in between. One that
  lands later can truncate the value too: a server may then report Attribute Not Long for a value that the new MTU
  carries whole, which `bluek/_att.py:285` takes for its end. `ReadIsCompleteIff` gives the condition under which the
  read is complete with every honest server, and `ReadNeverTruncatesIff` the one before the call, for the whole read:
  the peer has adopted the agreed MTU, or the client's Exchange MTU Response is on its way already. A client can tell:
  `AdoptedAndAnswered` and `SettledIsAdopted`. `SnapshotCanExceedServerMtu` is a run with a rule-abiding peer in which
  neither holds.
* Responses carry no tag, and the bearer stays in use after a timeout. A late answer is taken by the next request if
  the opcodes agree, or if it is an Error Response (`bluek/_att.py:187` compares nothing else): `LateAnswerTakenIff`.
  With no timeout at all, an Error Response to an Exchange MTU Request that the peer's own request has satisfied
  already fails the next request, whatever it is: `LateRefusalMispairs`; `RefusalHarmlessIff` says which refusals are
  harmless. `SafeCallIff` covers both: a request pairs in every continuation if and only if, before it, no request is
  unanswered and nothing on its way would be taken for its answer. An MTU exchange, too, takes a late Error Response
  for its refusal and then drops the peer's real answer, so the two sides hold different MTUs from then on:
  `LateErrorDisagrees`. `ExchangeSafeIff` and `GiveUpSafeIff` say exactly when an exchange may be started and when a
  pending one may be given up.
* `connect` does not clear the subscription ledger, and only an explicit disconnect does (`bluek/client.py:187-204`).
  After a peer close and a reconnect the ledger names subscriptions without handlers: `ReconnectLeavesStale` is such
  a sequence of calls, and `SoundAfterConnectIff` the exact condition.

All lemmas switch off automatic induction: their inductions are written out.

## Model

| member | source | states |
|---|---|---|
| AttClient.ATTClient.constructor | bluek/_att.py:122-135 | a new client has no transaction, the default MTU and no handlers |
| AttClient.ATTClient.HandleData | bluek/_att.py:145-188 | in place, the fields become exactly `OnData` of the old ones: notifications and indications go to their handler, a peer MTU Request is adopted and answered and satisfies an exchange of our own, and only the awaited opcode or an error settles the future |
| AttClient.ATTClient.Dispatch | bluek/_att.py:205-208 | the handler registered for the handle, if any, is called once with the value |
| AttClient.ATTClient.HandleClose | bluek/_att.py:210-213 | a waiting future fails with the exception of the socket, or with "disconnected"; a done one is left alone |
| AttClient.ATTClient.BeginRequest | bluek/_att.py:219-222 | a fresh, unresolved future takes the slot with the opcode it waits for |
| AttClient.ATTClient.EndRequest | bluek/_att.py:226-235 | the slot is cleared, and the outcome classified: an exception is raised as it is; error responses, short error responses and other opcodes raise |
| AttClient.ATTClient.EndExchangeMtu | bluek/_att.py:237-259 | a response sets and returns max(23, min(ours, theirs)); a refusal returns the MTU as it is; a timeout does so only if the peer started an exchange itself, and is raised otherwise |
| AttClient.ATTClient.SetNotifyHandler | bluek/_att.py:379-380 | the handler replaces the one for that handle and no other |
| AttClient.ATTClient.RemoveNotifyHandler | bluek/_att.py:382-383 | the handle loses its handler and no other does; a missing one is fine |
| Att.ErrorPduClassifies | bluek/_att.py:229-232 | an Error Response raises with its request opcode, handle and code, whatever was awaited |
| Transactions.SafeStep | bluek/_att.py:174-188 | with any peer, each step keeps: lock and slot agree, futures are settled by admissible PDUs only, at most once |
| Transactions.OutcomeIsFinal | bluek/_att.py:186-188 | once a future is done, no step changes its outcome until the slot is cleared |
| Transactions.SettledAtMostOnce | bluek/_att.py:174-188 | in every run against any peer, timeouts and cancellations included, no future is settled twice, and the slot invariant holds |
| Transactions.UnexpectedOpcodeUnreachable | bluek/_att.py:218-235 | in every run against any peer a finished transaction returns its response, raises its error response, or raises on a truncated one: never "unexpected ATT opcode" |
| Transactions.LostLinkRaises | bluek/_att.py:210-213 | when the link is lost a waiting transaction can resume at once, and ends with the exception of the socket, or with "disconnected" |
| Pairing.InStepKept | bluek/_att.py:145-235 | every step with a FIFO server keeps: at most one answer is in flight, and it is the answer to the pending request or the refusal of the pending exchange |
| Pairing.StaysInStep | bluek/_att.py:145-235 | from every state in step, every run stays in step |
| Pairing.AnswersPairWithRequests | bluek/_att.py:174-235 | in every run the k-th completed transaction has the k-th request the server answered and that very answer, whatever notifications, indications, MTU Requests, stale MTU Responses and refusals of an awaited exchange are mixed in |
| SafeCalls.SafeCallIff | bluek/_att.py:186-188 | a request completes only with the server's answer to it, in every continuation with timeouts, cancellation and refusals, if and only if before the call nothing is unanswered and nothing on its way would be taken for its answer |
| SafeCalls.SafeCallPairs | bluek/_att.py:218-235 | a safe request completes at most once, with the one answer the server gave to it, and then nothing is unanswered |
| SafeCalls.UnsafeCallMispairs | bluek/_att.py:186-188 | for an unsafe request there is a continuation, without timeouts, in which it completes before the server has answered it |
| SafeCalls.InCallKept | bluek/_att.py:174-235 | every step of a safe call keeps: one answer at most is taken, and it is the server's |
| SafeCalls.CarefulCallsPair | bluek/_att.py:218-235 | in every run of safe calls, with timeouts, cancellations and refusals, the completed exchanges are ones the server made, in its order |
| LateAnswers.AfterTimeout | bluek/_att.py:223-228 | after a timeout the slot is free, the link is up and the request is still on its way |
| LateAnswers.LateAnswerTakenIff | bluek/_att.py:186-188 | an answer to an earlier request is taken for the pending one if and only if the opcodes agree or it is an Error Response; otherwise the client goes on waiting |
| LateAnswers.LateAnswerMispairsIff | bluek/_att.py:218-235 | from the start, with a timeout: exactly under that condition the answer to the first request completes the second |
| LateAnswers.LateRefusalMispairs | bluek/_att.py:169-188 | from the start, without a timeout: the refusal of an exchange that the peer's request satisfied completes the next request, whichever it is |
| LateAnswers.RefusalHarmlessIff | bluek/_att.py:174-188 | after a refusal every continuation stays in step if and only if our exchange was waiting and nothing that settles it was on its way |
| LateAnswers.UnawaitedRefusalHarms | bluek/_att.py:186-188 | after any other refusal some continuation without timeouts gets out of step |
| MtuAgreement.DeliverPending | bluek/_att.py:157-188 | what each delivered PDU does to the MTU, the tasks and a pending exchange, which a response, the peer's request or a refusal settles |
| MtuAgreement.AgreeingKept | bluek/_att.py:157-259 | every step, timeouts and cancellations included, keeps: whichever side is ahead, something in flight will bring the other up to the agreed MTU, and nothing in flight can refuse the exchange by mistake |
| MtuAgreement.BothSidesAgree | bluek/_att.py:237-259 | in every run, with refused exchanges and with timeouts and cancellations of other transactions, the MTU is 23 or max(23, min(247, p)), and with no MTU PDU in flight both sides hold the same one, whoever started; exchanges are started and given up only where `ExchangeSafeIff` and `GiveUpSafeIff` say they may be |
| MtuAgreement.RefusalsKeepDefault | bluek/_att.py:242-244 | with a peer that neither grants our exchange nor starts one, both sides keep 23 |
| ExchangeResults.FlagIsRecorded | bluek/_att.py:167-238 | in every run with any peer the flag says whether an Exchange MTU Request was received since the last call of `exchange_mtu` began |
| ExchangeResults.ExchangeEnds | bluek/_att.py:237-259 | in every run with any peer, on the bytes: `exchange_mtu` returns max(23, min(ours, theirs)) on a response, the unchanged MTU on an Error Response, raises a timeout exactly if no Exchange MTU Request of the peer arrived since it began, and raises any other exception |
| ExchangeSafety.LateErrorDisagrees | bluek/_att.py:187-188 | from the start: a request times out, an exchange begins, the late Error Response refuses it, and the granted MTU is dropped; nothing is in flight, and the client holds 23 and the peer the agreed MTU |
| ExchangeSafety.UnsafeExchangeDisagrees | bluek/_att.py:237-244 | for every exchange started where that condition fails there is a continuation in which the sides disagree with nothing in flight |
| ExchangeSafety.ExchangeSafeIff | bluek/_att.py:237-259 | the sides agree in every continuation of an exchange if and only if, before it, the client has adopted the agreed MTU or will by a peer request on its way, or no attribute request is unanswered and no Error Response is on its way |
| ExchangeSafety.GiveUpDisagrees | bluek/_att.py:245-256 | for every exchange given up where that condition fails there is a continuation in which the sides disagree with nothing in flight |
| ExchangeSafety.GiveUpSafeIff | bluek/_att.py:245-256 | the sides agree in every continuation of a timeout or cancellation of an exchange if and only if the client has adopted the agreed MTU or will by a peer request on its way, or the peer has not granted the exchange and no Exchange MTU Request of ours is on its way |
| Traffic.OnDataSpawns | bluek/_att.py:149-168 | a PDU starts the one task it owes, if any; notifications and indications never touch the pending transaction or the MTU |
| Traffic.AccountedStep | bluek/_att.py:152-168 | each step keeps: confirmations (or MTU Responses) pending, run or dropped equal indications (or MTU Requests) received |
| Traffic.HandlersCalledStep | bluek/_att.py:205-208 | each step keeps: the handlers were called exactly for the values that arrived while they were in force, in order |
| Traffic.TrafficIsConserved | bluek/_att.py:145-208 | in every run with any peer: the PDUs `[0x1E]` sent, with confirmations still to be sent or dropped by a closed link, are as many as the PDUs received that begin with 0x1D, and the same of `[0x03, 0xF7, 0x00]` and 0x02; handlers were called as above; and in both directions received plus queued PDUs are the ones sent, in order |
| Paging.RequestsBounded | bluek/_att.py:301-325 | against any bytes whatever, a paging loop sends at most one request per handle of its range |
| Paging.PageDecodes | bluek/_att.py:314-322 | a conformant page decodes to exactly its attributes, for 16- and 128-bit UUIDs alike |
| Paging.ConformantTurn | bluek/_att.py:353-375 | one turn against a conformant server takes a non-empty prefix of what matches, or ends because nothing does |
| Paging.Resumption | bluek/_att.py:323-325 | resuming behind the last entry leaves exactly the matching attributes that were not in the page; for services because their groups are disjoint |
| Paging.PagesAreExact | bluek/_att.py:328-351 | all pages together are the attributes of the range in order, each once, for every page size, with at most one request more than there are attributes |
| PageContents.PagesAreAnswers | bluek/_att.py:301-326 | whatever the peer answers, a paging loop that returns has asked each time behind the last handle of the page before, has stopped exactly at an error or a last handle that is past the end or goes backwards, and returns the entries of all answers in order |
| PageContents.EntriesAt | bluek/_att.py:317-321 | the i-th entry of an answer is decoded from the i-th slice of the entry length |
| PageContents.EntriesCount | bluek/_att.py:317-317 | there are as many entries as whole slices; a trailing fragment is none |
| PageContents.EntryOnWire | bluek/_att.py:319-322 | an entry is two little-endian bytes of handle, for a service two of its end, and the value |
| Failures.RequestsOnWire | bluek/_att.py:302-307 | the bytes of the three discovery requests |
| Failures.PagesFail | bluek/_att.py:310-315 | a paging loop one of whose transactions ends in anything but its response with an entry length, or Attribute Not Found, raises just that |
| Failures.PagesPass | bluek/_att.py:310-315 | a paging loop returns if and only if every transaction it asked for ended in one of the two |
| AttLink.Link.ParseEntries | bluek/_att.py:316-322 | the loop over fixed-length entries decodes each whole one, ignores a trailing fragment, and remembers where the last one ends |
| AttLink.Link.NextPage | bluek/_att.py:301-325 | one turn in place: Attribute Not Found ends the loop, other errors and malformed headers raise, otherwise go on behind the last entry |
| AttLink.Link.ReadPages | bluek/_att.py:299-351 | the paging loop in place yields `Pages`, and uses as many transactions |
| AttLink.Link.FindInformation | bluek/_att.py:353-376 | the same for Find Information, with the UUIDs in string form |
| AttLink.InfoPagesHaveUuids | bluek/_att.py:363-371 | against any bytes, the UUID slices of Find Information entries have 2 or 16 bytes, so decoding them cannot raise |
| Discovery.CollectServices | bluek/_att.py:388-390 | the entries of service declarations decode to those services |
| Discovery.CollectCharacteristics | bluek/_att.py:393-398 | the entries of characteristic declarations decode to properties, value handle and UUID |
| Discovery.DescribeKeeps | bluek/_att.py:399-405 | whatever the peer sends, the second loop only fills in ends and descriptors, and the ends are the next declaration minus one, or the service end |
| Discovery.RangesTile | bluek/_att.py:400-401 | for increasing declarations a handle is between the first declaration and the service end exactly when it is in some range, and it is in at most one |
| DiscoverLoop.DescribeCharacteristics | bluek/_att.py:399-405 | the descriptor loop in place equals `Describe`, failures included |
| DiscoverLoop.PopulateService | bluek/_att.py:392-406 | one service in place equals `Populate` |
| DiscoverLoop.DiscoverTree | bluek/_att.py:386-407 | `discover()` as loops equals `Discover` on every link |
| DiscoveryExact.PrimaryMatches | bluek/_att.py:389-390 | the primary service declarations of a database are those of its services, in order |
| DiscoveryExact.GroupsAreDisjoint | bluek/_att.py:322-325 | service groups do not overlap other attributes, which the group loop relies on |
| DiscoveryExact.CharacteristicMatches | bluek/_att.py:394-394 | reading by type between a service's handles finds exactly its characteristic declarations |
| DiscoveryExact.DescriptorMatches | bluek/_att.py:403-404 | exactly a characteristic's descriptors lie between its value handle and its end |
| DiscoveryExact.DescribeExact | bluek/_att.py:399-405 | each characteristic gets its own end and descriptors |
| DiscoveryExact.PopulateExact | bluek/_att.py:392-406 | a service gets exactly its characteristics |
| DiscoveryExact.DiscoverIsExact | bluek/_att.py:386-407 | for every well-formed database and every conformant server, `discover()` returns precisely the tree of the database |
| Failures.DiscoverFails | bluek/_att.py:386-407 | with any peer: if one of the transactions of `discover()` ends in a lost link, a timeout, another ATT error, a foreign opcode or a malformed page, `discover()` raises exactly that, and returns no shortened tree |
| Failures.DiscoverPasses | bluek/_att.py:386-407 | with any peer: `discover()` returns only if all its transactions ended in their response or in Attribute Not Found; if they did, only an entry without a whole UUID can still make it raise |
| Failures.FirstRequestFails | bluek/_att.py:390-390 | the first request of every discovery is `10 01 00 FF FF 00 28`, and what it fails with is raised |
| Traces.DiscoverAgrees | bluek/_att.py:386-407 | the result of `discover()` depends on the outcomes of the requests it makes and on nothing else of the link |
| Interleaving.CompletedWell | bluek/_att.py:174-235 | everything a run completes is an answer that its server gave |
| Interleaving.CarefullyCompletedWell | bluek/_att.py:174-235 | the same in runs of safe calls, with timeouts, cancellations and refusals |
| Interleaving.DiscoverInRun | bluek/_att.py:386-407 | in every run with a conformant FIFO server, a `discover()` whose transactions the run completes returns precisely the tree, whatever traffic is interleaved |
| Interleaving.DiscoverInCarefulRun | bluek/_att.py:386-407 | the same in runs of safe calls, where other transactions may time out, be cancelled or be refused |
| GattServer.DiscoverOfServe | bluek/_att.py:386-407 | discovering what that server serves gives back the tree, for every database and all limits |
| LongRead.ReadBlob | bluek/_att.py:279-287 | an offset beyond two bytes raises without a request; Invalid Offset and Attribute Not Long mean no more data |
| LongRead.ReadValue | bluek/_att.py:262-277 | `read()` as a loop equals `Read`, with the MTU noted after the first response |
| LongRead.BlobIsPiece | bluek/_att.py:279-287 | from an honest server each blob is a piece of the value at its offset, empty at the end, and before the end only if one response could carry the whole value |
| LongRead.AccumulateCompletes | bluek/_att.py:272-277 | from any prefix the loop continues with, the whole value is accumulated for any piece sizes, as long as no response could carry it whole |
| LongRead.ReadIsCompleteIff | bluek/_att.py:262-287 | `read()` returns all of the value from every server that holds it, with any MTU at each transaction, if and only if the value fits the first response, or the MTU noted is at most the one that sized it and no transaction in which the read can still be inside the value has an MTU that would carry the value whole |
| LongRead.ReadCompletes | bluek/_att.py:262-277 | under that condition the read is complete with any honest server, whatever the sizes of its blobs |
| LongRead.NotedTooLarge | bluek/_att.py:265-272 | if the MTU noted is larger and the value does not fit, it returns just the first response and asks for nothing more |
| LongRead.SomeServerStops | bluek/_att.py:279-287 | when the condition fails there is a server that holds the value and from which it is not read completely |
| LongRead.RaisedMtuTruncates | bluek/_att.py:265-272 | a 66-byte value read at MTU 23 while the MTU rises to 247 comes back as 22 bytes |
| LongRead.NotLongTruncates | bluek/_att.py:284-286 | the same value comes back as 22 bytes when the MTU rises after it was noted and the server reports Attribute Not Long |
| LongRead.ReadTerminates | bluek/_att.py:272-280 | against any server the loop ends within 65536 blob requests |
| LongRead.ReadCost | bluek/_att.py:270-280 | with MTU m on both sides, ceil(L/(m-1)) Read Blob requests for a value of L >= m-1 bytes, none for a shorter one |
| Failures.ReadFails | bluek/_att.py:262-287 | with any peer: if the Read Request ends in an error or exception, or a Read Blob Request in one other than Invalid Offset and Attribute Not Long, `read()` raises exactly that |
| Failures.ReadPasses | bluek/_att.py:262-287 | with any peer: `read()` returns only if none did; then only an offset beyond two bytes can still make it raise |
| Traces.ReadAgrees | bluek/_att.py:262-287 | the result of `read()` depends on the outcomes of the requests it makes, and on the MTU it notes |
| Interleaving.ReadInRun | bluek/_att.py:262-287 | in every run with a server that holds the value, a `read()` whose transactions the run completes is complete if the first response carries the value or the MTU noted is no larger and the value exceeds the largest MTU; it is not if the MTU noted is larger |
| Interleaving.ReadInCarefulRun | bluek/_att.py:262-287 | the same in runs of safe calls, where other transactions may time out, be cancelled or be refused |
| ReadRace.SnapshotCanExceedServerMtu | bluek/_att.py:265-270 | a run with a rule-abiding peer in which the MTU noted is larger than the server's when it answered |
| ReadSession.InSessionKept | bluek/_att.py:262-287 | every move of a session keeps: what the read has is a prefix of the value, and whatever can settle its transaction is a good answer to it, sized by the MTU that the server had when it answered |
| ReadSession.ReadReturnsValue | bluek/_att.py:262-277 | from any state, with traffic, MTU exchanges, timeouts and closes in between: a value that `read()` returns is the whole one under the condition of `ReadIsCompleteIff`, on the MTU in the state in which its coroutine resumed and those of the server in the states in which it answered |
| ReadSession.SessionIsRead | bluek/_att.py:262-287 | what a session returns is what `Read` returns on every link that gives its transactions the same outcomes |
| ReadSafety.AdoptedAndAnswered | bluek/_att.py:165-168 | on the client alone: having adopted the agreed MTU and sent every Exchange MTU Response, its reads are safe |
| ReadSafety.SettledIsAdopted | bluek/_att.py:165-168 | conversely, where reads are safe the client has adopted the agreed MTU or a request that makes it is on its way |
| ReadSafety.SettledReadIsWhole | bluek/_att.py:262-287 | if before the call the peer has adopted the agreed MTU, or the client's Exchange MTU Response is on its way, no session through all its transactions returns anything but the whole value |
| ReadSafety.SettledReadOfRun | bluek/_att.py:262-287 | the same from the run to `Read` on the outcomes of the run: its result is an error or the whole value |
| ReadSafety.UnsettledTruncates | bluek/_att.py:265-272 | from any other state, and a value of at least 23 bytes, some session with a rule-abiding peer is truncated |
| ReadSafety.ReadNeverTruncatesIff | bluek/_att.py:262-287 | before a read of a value longer than 22 bytes: no session truncates it if and only if the peer has adopted the agreed MTU or the client's Exchange MTU Response is on its way |
| Connect.Connector.TryCandidates | bluek/client.py:146-162 | the one known type, or public and then random, are tried in order, each before the deadline with exactly the remaining time as budget, up to the first success, which sets the peer type; fewer are tried only when the time is up |
| Connect.Connector.Prescan | bluek/client.py:130-138 | the budget is what exceeds one second, up to two; a public or random type seen replaces the hint, if there was a budget |
| Connect.Connector.Retry | bluek/client.py:140-169 | every round but the last tried all types, connected none and had an OSError; it fails only without an attempt connected in the last round, and then that round had no OSError or at most 300 ms are left; at most ceil(T/300) rounds and twice as many attempts, whose outcomes are those of the world in order |
| Connect.Connector.Connect | bluek/client.py:120-174 | the same from the call on: the deadline is the call's time plus T, and success leaves the type that connected |
| Subscriptions.Subscriber.StartNotify | bluek/client.py:267-282 | offline it raises; otherwise the handler is registered first, and the ledger entry is made only after the CCCD write succeeded |
| Subscriptions.Subscriber.StopNotify | bluek/client.py:284-293 | offline it raises; otherwise the entry goes, the CCCD is cleared, the handler is removed; only errors that are no BleakError propagate, and then the handler stays |
| Subscriptions.Subscriber.Connected | bluek/client.py:176-178 | a new session has no handlers; the ledger stays |
| Subscriptions.Subscriber.OnDisconnect | bluek/client.py:193-195 | a peer close takes the client offline and leaves handlers and ledger alone |
| Subscriptions.Subscriber.Teardown | bluek/client.py:199-204 | an explicit disconnect clears the ledger |
| Subscriptions.StartLeavesOthers | bluek/client.py:267-282 | starting one characteristic changes nothing for another |
| Subscriptions.StopLeavesOthers | bluek/client.py:284-293 | stopping one characteristic never clears another's CCCD, handler or entry |
| Subscriptions.CccdOfIff | bluek/client.py:276-276 | the CCCD is the first descriptor with UUID 2902 |
| Subscriptions.StartEnables | bluek/client.py:274-282 | a start registers the handler even if its write fails; a write the server applied leaves the CCCD at 0x0002 for a characteristic that indicates and does not notify, else at 0x0001; the entry is made exactly if there was no error |
| Subscriptions.LedgerIsSound | bluek/client.py:267-293 | over any connections made with an empty ledger and any calls, whichever writes fail: every ledger entry has the handler that was passed last, and on the server its CCCD has the value for notifications, or for indications where the characteristic only indicates |
| Subscriptions.SoundAfterConnectIff | bluek/client.py:176-178 | a sound ledger is sound on a new connection if and only if it is empty |
| Subscriptions.ReconnectLeavesStale | bluek/client.py:176-178 | connect, subscribe, peer close, connect: the ledger then names a subscription that has no handler |
| Subscriptions.LedgerHolds | bluek/client.py:199-204 | a value handle is in the ledger if and only if it was subscribed and since then neither stopped nor the client explicitly disconnected; a peer close does not count |
| Subscriptions.HandlersHold | bluek/client.py:267-293 | over any calls at all: the handler registered for a value handle is the one passed last on this connection and not stopped since; a stop whose CCCD write raises no BleakError leaves it |
| Subscriptions.ExactAfterConnectIff | bluek/client.py:176-178 | the ledger is sound and complete on a new connection if and only if it is empty and no enabled CCCD survives |
| Subscriptions.LedgerIsExact | bluek/client.py:267-293 | with no write errors and connections that begin so, the enabled CCCDs are, while connected, exactly those in the ledger |
| TreeOrder.TreeIsDistinct | bluek/_att.py:399-405 | in a discovered tree no two characteristics share a value handle or a descriptor |
| TreeOrder.LedgerOnDiscoveredTree | bluek/client.py:267-293 | both ledger results, over any such connections, for the tree of every well-formed database |
| TreeOrder.LookupsAreUnique | bluek/characteristic.py:113-119 | on a discovered tree the handle lookups return the one characteristic or descriptor with that handle |
| ServiceIndex.ServiceCollection.constructor | bluek/characteristic.py:81-91 | the nested loops leave all three dictionaries agreeing with linear search over the tree |
| ServiceIndex.FirstByUuidIs | bluek/characteristic.py:89-89 | the search by UUID finds the match that no other precedes |
| ServiceIndex.LastByHandleIs | bluek/characteristic.py:88-88 | the search by handle finds the match that no other follows |
| ServiceIndex.LastDescriptorIs | bluek/characteristic.py:90-91 | and so does the one for descriptors |
| ServiceIndex.ServiceCollection.GetCharacteristicByHandle | bluek/characteristic.py:113-115 | the last characteristic in tree order with that declaration handle |
| ServiceIndex.ServiceCollection.GetCharacteristicByUuid | bluek/characteristic.py:113-116 | the first characteristic in tree order whose UUID is the normal form of the argument; a malformed argument raises |
| ServiceIndex.ServiceCollection.GetDescriptor | bluek/characteristic.py:118-119 | the last descriptor in tree order with that handle |
| Lifecycle.L2CAPSocket.Fail | bluek/_l2cap.py:156-162 | only the first failure closes, fails the pending transaction and tells the client, all in that step |
| Lifecycle.L2CAPSocket.Close | bluek/_l2cap.py:164-175 | the latch is set, and nobody is called |
| Lifecycle.ATTSession.OnClose | bluek/_att.py:210-215 | an unresolved transaction fails, then the client's callback runs if it was connected |
| Lifecycle.BleakClient.OnDisconnect | bluek/client.py:193-197 | the user callback runs exactly on the transition from connected |
| Lifecycle.BleakClient.Disconnect | bluek/client.py:187-202 | the socket is closed and the session dropped without the user callback |
| Lifecycle.BleakClient.RequireAtt | bluek/client.py:239-242 | no session or not connected raises before anything is sent |
| Lifecycle.World.Attach | bluek/client.py:176-178 | the objects follow the state machine when a new connection is made |
| Lifecycle.World.Lost | bluek/_l2cap.py:128-138 | the objects follow it when a socket, current or not, fails or ends; a pending transaction fails then, with the exception of the socket or with "disconnected", before the user is called |
| Lifecycle.World.Disconnect | bluek/client.py:187-204 | the objects follow it on an explicit disconnect |
| Lifecycle.World.Operation | bluek/client.py:239-264 | a GATT operation starts exactly while there is a session and the client is connected |
| Lifecycle.World.Send | bluek/_l2cap.py:142-147 | a PDU goes out exactly on a socket that is not closed |
| Lifecycle.LatchedStep | bluek/_l2cap.py:156-170 | each step keeps: only the connection in use can be open, and nothing follows a close on it |
| Lifecycle.DisconnectIsLatched | bluek/client.py:187-204 | over every order of closes, errors, disconnects and reconnects: at most one user callback per connection, none after its explicit disconnect, and no operation or PDU after it closed |
| Lifecycle.CallbackIsExact | bluek/client.py:193-204 | over every such order: the client is connected exactly while the connection made last is neither lost nor disconnected, the user callback has run exactly as often as the connection in use was lost, and operations start exactly while connected |
| Uuids.CanonicalIsNormal | bluek/uuids.py:17-27 | a canonical string is its own normal form and parses to its value |
| Uuids.NormalFormIsCanonical | bluek/uuids.py:17-27 | normalisation is idempotent and yields exactly the canonical strings |
| Uuids.NormalIffDashed | bluek/uuids.py:17-27 | a string is its own normal form if and only if it is 32 lower-case digits in the 8-4-4-4-12 grouping |
| Uuids.ShortFormNormalizes | bluek/uuids.py:22-26 | 16- and 32-bit forms are the Base UUID with its leading digits replaced |
| Uuids.ShortStringNormalizes | bluek/uuids.py:22-26 | with blanks around it, 0x before it and digits in any case, a 16- or 32-bit form is the Base UUID with its leading digits replaced |
| Uuids.NormalizeIgnoresCase | bluek/uuids.py:22-22 | strings that differ only in the case of letters normalise alike |
| Uuids.DecorationsParse | bluek/uuids.py:27-27 | a 128-bit string may be bare digits, in braces, or a URN |
| Uuids.DecodesToWireValue | bluek/uuids.py:34-45 | a wire UUID decodes to the canonical string of its 128-bit value |
| Uuids.DecodeAlikeIffSameValue | bluek/uuids.py:34-45 | wire UUIDs of any lengths decode alike if and only if they denote the same 128-bit value |
| Uuids.DecodeOfEncode | bluek/uuids.py:48-58 | decoding the encoding of any string gives its normal form; both fail on the same strings |
| Uuids.EncodeAlikeIffSameUuid | bluek/uuids.py:48-58 | two strings encode alike if and only if their normal forms are equal |
| Uuids.EncodeOfDecode | bluek/uuids.py:54-58 | re-encoding decoded bytes gives two bytes exactly when the value is the Base UUID with only the 16-bit slot changed |
| PythonInt.IntOfHex | bluek/_util.py:11 | `int(s, 16)` reads bare hexadecimal digits as what they denote |
| PythonInt.IntOfSigned | bluek/_util.py:11 | a sign, or 0x in either case, may come before the digits |
| Addresses.StrToBdaddrOfStr | bluek/_util.py:6-19 | six wire bytes survive formatting and parsing |
| Addresses.AddressFormat | bluek/_util.py:14-19 | an address is shown as six pairs of upper-case digits between colons, the last byte on the wire first |
| Addresses.StrToBdaddrIff | bluek/_util.py:6-11 | a string is read exactly if, without the blanks around it, it has six parts between colons that are numerals of a byte; they are the bytes in reverse |
| Addresses.JoinOfSplit | bluek/_util.py:8-8 | the parts are what is between the colons |
| Mgmt.ParseOfEncode | bluek/_mgmt.py:59-66 | a packet parses back to its code, index and parameters |
| Mgmt.PacketOnWire | bluek/_mgmt.py:63-66 | any packet is three little-endian fields and as many parameters as it has, up to the length given; a short header raises |
| Mgmt.ReportDecodesIff | bluek/_mgmt.py:107-113 | a report is decoded exactly if it has 14 bytes; the first missing field decides what is raised |
| Mgmt.ParseEir | bluek/_mgmt.py:69-81 | on any bytes the loop stays in bounds and returns the last-wins map of the structures |
| Mgmt.StructuresOfEncode | bluek/_mgmt.py:69-81 | any list of structures, followed by nothing or by zero padding, is recovered |
| Mgmt.StructuresArePrefix | bluek/_mgmt.py:74-77 | on any bytes, what is kept is a prefix of the data, and parsing stops only where no structure starts |
| Mgmt.StructuresAreMaximal | bluek/_mgmt.py:74-80 | no longer list of non-empty structures is a prefix of the data |
| Mgmt.ReportRoundTrip | bluek/_mgmt.py:107-114 | a packed device-found report is recovered field by field: address, type, signed RSSI, flags and the last-wins map |

## Left out

- Pairing.AnswersPairWithRequests: no timeouts or cancellation, and exchanges are refused only while they wait; `SafeCallIff`, `CarefulCallsPair` and `RefusalHarmlessIff` say what holds beyond that.
- MtuAgreement.BothSidesAgree: assumes that the client's Exchange MTU Responses reach the link while it is up, that exchanges ask for the preferred MTU, that the peer has one receive MTU, and that a stray Exchange MTU Response comes only from a peer that has adopted the value. That exchanges are started and given up only on the conditions of `ExchangeSafeIff` and `GiveUpSafeIff` is needed: without either one the sides can disagree.
- LongRead.ReadIsCompleteIff: the value is constant and at most 65535 bytes long.
- ReadSession.ReadReturnsValue: each request of the read is made where nothing unanswered or on its way would be taken for its answer (`SafeCallIff` says what happens otherwise); the server refuses no Read Blob Request inside the value with Invalid Offset, and the peer keeps the rules of `BothSidesAgree`.
- Interleaving.ReadInRun: the two MTUs are parameters, and between its two conditions nothing is said; `ReadReturnsValue` and `ReadNeverTruncatesIff` take them from the run.
- Connect.Connector.Retry: times are integer milliseconds of a monotone clock and a sleep lasts at least its delay; exceptions other than OSError and a timeout are not modelled.
- Lifecycle.DisconnectIsLatched: `connect` is not called while connected.
- Lifecycle.ATTSession.OnClose: the session here has only what closing touches of the source's `ATTClient`; the rest of that class is in `AttClient`.
- Subscriptions.LedgerIsExact: calls of start and stop do not overlap, all are on characteristics of one discovered tree, and every connection discovers that tree; the server keeps the CCCDs of a bonded client and resets those of others.
- Traffic.TrafficIsConserved: notification callbacks do not raise.
- Uuids.DecodeOfEncode: strings are ASCII; Unicode case folding, Unicode blanks and Unicode decimal digits are not modelled.
- Addresses.StrToBdaddrOfStr: the same for the strings `int(p, 16)` accepts.
- Sockets, file descriptors and asyncio: the lock, the future and fire-and-forget tasks are explicit state and steps, the transport is two FIFO queues with a close event.
- The three paging loops differ only in the entry they decode and share one loop here, with the entry format as a parameter.
- GATT services, characteristics and descriptors are values that the loops of `discover()` build, not objects updated through aliases.
- What `connect` does behind the socket: it calls `exchange_mtu` and `discover()`, whose results are modelled, and disconnects and raises if one of them raises.
- The pre-scan itself: its result is a parameter of `Connect`, and the time it takes is part of the clock's drift.
- Error texts, log strings, UTF-8 names and `properties_to_strings` beyond the two flags subscriptions look at.
- `write` and `write_command` payload contents: only that they are requests and commands on the channel.
- `get_service`, `BleakGATTCharacteristic` equality and hashing: they would add only easy members.
- `MgmtSocket`, the scanner, advertisement data, pairing, import shadowing, HCI and the benchmarks.
