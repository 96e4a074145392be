# kapsule-dbus-mux: a verified model

kapsule-dbus-mux lets many D-Bus clients share one connection to a container bus and one to a
host bus. This project models its state machines, its two parsers and its 32-bit arithmetic in
Dafny 4.11, and proves what they guarantee over every input and every run.
`dafny verify dfyconfig.toml` checks all of it.

Code that changes fields is modelled by classes whose methods are proved to compute a function of
the old state; what the program promises is then proved about that function, over every sequence
of steps. One handler is one step.

| files | component |
|---|---|
| `NameQueues`, `QueueLaws` | name ownership queues, each seen as one line `[primary] + waiters` |
| `Routing`, `NameOwnership`, `OwnershipLaws` | the queues, owned names, routing table and container bus kept in agreement |
| `Serials`, `Wire`, `Router` | serial numbers, message patching, call forwarding and reply correlation |
| `PortalRequests`, `PortalPaths` | tracking of portal requests and rewriting of their paths |
| `Traffic`, `ReplyLaws`, `PortalLaws` | calls, replies and portal responses as one state machine, and whom they reach |
| `OneShotTable` | the history theorem shared by pending calls and pending portal requests |
| `Auth`, `AuthLaws`, `Utf8` | authentication lines, and the protocol, text and user ids they amount to |
| `Framing`, `StreamLaws` | message frames and whole client sessions |
| `MatchRules`, `MatchRuleText`, `MatchFilter`, `Namespaces`, `MatchMeaning` | match rule parser, printer and matcher, and what a rule text means for a message |
| `Subscriptions`, `SubscriptionLaws` | reference counts that mirror client rules onto the buses |
| `Basics`, `Decimal` | option and result types, clock readings, decimal numerals |

## What is proved

- **Ownership.** The names held upstream, queued here and routed to the container stay the same
  set, every queued client is connected, primaries own their name and owners are queued, at every
  point of a run exactly when the container bus cooperates with every step, call by call
  (`StoresAgreeOverRuns`). In such a run every primary stays reachable by its unique name exactly
  while no client releases one of two names it heads (`RegistryKeptOverRuns`), and replies are true.
  A failed release breaks the agreement until the client's disconnect (`FailedReleaseHeals`).
- **Queues.** Every request and release of every run has the outcome the D-Bus Specification names
  for its flags. Clients that stay in line never swap, a firm owner is never unseated, departure
  equals release everywhere in any order, and a rolled-back request leaves no trace.
- **Replies.** A reply answers the call whose serial it bears exactly while that call is
  outstanding, reaches only its caller if fewer than 2^32 - 1 calls follow it on the bus, and that
  bound is sharp. Calls are conserved and pending entries are bounded in age.
- **Bytes.** The server is the state machine of the "Authentication Protocol" section, replies and
  errors included, on every input (`ServerFollowsProtocol`). However the input is chunked and whatever the client's spelling, authentication
  leaves exactly the bytes after the first BEGIN line, and messages within the format's limits
  that follow it are read as exactly those messages. What happens beyond the limits is decided
  by the two length fields (`ReadOutcomes`).
- **Match rules.** Printing and parsing are inverse up to last-wins, for any mixture of bare and
  quoted values and unknown keys, and what is refused is stated too; a rule text matches exactly the
  messages that satisfy, key by key, the last value written (`TextMatchesIff`); counts equal holders plus
  redundant adds; a signal reaches exactly the clients subscribed to it, and their rules are
  installed on both buses.
- **Portal.** A response goes to a client exactly if its path was the handle in the latest reply to
  a call of that client and nothing has ended the request since; each call gets at most one
  (`ResponseGoesToCallerIff`). If the multiplexer's component occurs once in the path, as any whole
  element, the rewrite changes exactly that element, and no two clients or paths are confused.

Claims one might expect but which do not hold of the code are stated with their exact condition and
a concrete witness:

| expected | exact condition | witness |
|---|---|---|
| the stores always agree | the bus grants, fails or releases as asked: `StepAgreesIffBusCooperates` | `RequestRefused` |
| a primary is reachable by its unique name | no release by a client heading another name: `RegistryKeptOverRuns` | `ReleaseForgetsPrimary` |
| a reply reaches only its caller | at most 2^32 - 2 further calls: `ReplyReachesOnlyItsCaller` | `ReuseMisdelivers` |
| the computed frame size is the real one | 16 + padded fields + body fits 32 bits: `ReadOutcomes` | lengths 0xFFFFFFFF and 0 misframe, 0xFFFFFFF0 and 0 panic: `UncheckedLengthsFail` |
| `path_namespace` is the namespace relation | the namespace is not the root: `PathNamespaceExactIff` | `RootNamespaceMatchesOnlyRoot` |
| a rule's count is its number of holders | no redundant add: `RulesMirroredWhileHeld` | `RepeatedAddLeaksRule` |
| the rewrite changes only the sender element | the token lacks the component: `RewriteIsClientPathIff` | `TokenIsRewrittenToo` |

Where the code and its own comments differ, the model follows the code: `name_has_owner` is
documented as "primary or waiting" but tests the primary only (src/name_queue.rs:340-343), and
values are documented as quoted but may be bare (src/match_rules.rs:90-105).

## Model

| member | source | states |
|---|---|---|
| `NameQueues.NameQueueManager.RequestName` | src/name_queue.rs:144-225 | the line moves by `Join`; reply code, forwarding and replaced owner are read off the line before and after; `QueueLaws.StepOutcomes` says what both are for each flag |
| `QueueLaws.StepOutcomes` | src/name_queue.rs:144-267 | at every point of every run: a client in line stays put and is told 4 or 2; on a free name, or with flag 2 against an owner that allowed it, it becomes the head and is told 1; else it ends last and is told 2 exactly without flag 4, and otherwise is told 3; a release or departure takes out exactly that client and is told 1, 2 or 3 |
| `NameQueues.Join` | src/name_queue.rs:155-218 | a request leaves the line alone, appends the newcomer or prepends it, and nothing else |
| `NameQueues.NameQueueManager.ReleaseName` | src/name_queue.rs:235-288 | the client is filtered out of that line and an emptied line disappears; code, forwarding and promoted owner follow from the line before and after |
| `NameQueues.NameQueueManager.RemoveClient` | src/name_queue.rs:303-338 | the client is filtered out of every line, no line without a primary and no client twice remains, and the report lists each name it headed once, with its new head, whatever the iteration order |
| `NameQueues.NameQueueManager.DropFromAll` | src/name_queue.rs:304-330 | the loop over the hash map in any order visits every queue once and reports the handovers |
| `NameQueues.NameQueue.AllOwners` | src/name_queue.rs:68-77 | the unique names of the line, primary first |
| `NameQueues.NameQueueManager.ListQueuedOwners` | src/name_queue.rs:291-296 | exactly the line's unique names in order, none for an unknown name |
| `NameQueues.NameQueueManager.NameHasOwner` | src/name_queue.rs:341-343 | true exactly for the names that have a line |
| `QueueLaws.RunWellFormed` | src/name_queue.rs:144-338 | in every run each name in the map has a primary and no client is twice in a line |
| `QueueLaws.HeadLostIffUnseated` | src/name_queue.rs:190-255 | a step takes the head of a line away exactly if it is the head's own release or departure, or a newcomer replacing a head that allows it |
| `QueueLaws.FirmOwnerStays` | src/name_queue.rs:190-225 | over every run an owner that joined without ALLOW_REPLACEMENT stays primary until it releases or departs |
| `QueueLaws.OrderKept` | src/name_queue.rs:195-267 | over every run two clients that both stay in a line keep their order |
| `QueueLaws.DepartedIsReleasedEverywhere` | src/name_queue.rs:303-338 | removing a client equals releasing, in any order, every name it queues for |
| `QueueLaws.RollbackUndoesRequest` | src/multiplexer.rs:665-669 | rolling back a request that made the caller primary restores the map, and with departures of others in between gives the map those departures alone produce |
| `Routing.RoutingTable.OnContainerNameChange` | src/routing.rs:173-202 | the new table, as a function of the old one |
| `Routing.RoutingTable.OnHostNameChange` | src/routing.rs:210-232 | the new table, as a function of the old one |
| `Routing.RoutingTable.GetNameOwnerRoute` | src/routing.rs:271-279 | the bus a name is owned on, the container first |
| `Routing.RoutingTable.NameHasOwner` | src/routing.rs:264-266 | true exactly if it is owned on either bus |
| `Routing.RoutingTable.FindRoute` | src/routing.rs:118-156 | the route of a destination in the present table |
| `Routing.NamesFollowChanges` | src/routing.rs:173-232 | after any interleaving of changes the table holds a name for a bus exactly if the latest change of it there left it an owner |
| `Routing.ContainerTakesPriority` | src/routing.rs:118-144 | then a well-known name goes to the container exactly if owned there, and the owner queries answer the container first, then the host, then none |
| `Routing.UniqueNameFollowsOwner` | src/routing.rs:147-156 | after any changes a unique name goes to the bus whose change made it an owner if no later change mentions it, to the host if the latest mention took a name from it |
| `NameOwnership.UniqueNamesDiffer` | src/client.rs:194-195 | different client ids have different unique names |
| `NameOwnership.Multiplexer.RegisterClient` | src/multiplexer.rs:290-300 | a client is registered under a fresh id with nothing owned |
| `NameOwnership.Multiplexer.HandleRequestName` | src/multiplexer.rs:597-683 | the whole new state and the reply, for a granted, refused and failed bus call and for an unknown client |
| `NameOwnership.Multiplexer.HandleReleaseName` | src/multiplexer.rs:686-770 | the whole new state and reply code: handover to a waiter, release upstream (or its failure), or leaving the queue |
| `NameOwnership.Multiplexer.HandleDisconnect` | src/multiplexer.rs:310-446 | both loops, in whatever order the names come and whichever of their release calls fail, leave one state: handovers carried out, emptied names released, leftovers forgotten |
| `NameOwnership.Multiplexer.CarryOutAll` | src/multiplexer.rs:373-411 | the ownership changes reported by the queues are carried out, each once |
| `NameOwnership.Multiplexer.ReleaseLeftovers` | src/multiplexer.rs:415-446 | owned names without a queue are dropped from routing and released upstream |
| `OwnershipLaws.RequestRefused` | src/multiplexer.rs:645-663 | a refusal by the bus breaks the agreement while the client is told it is the primary owner |
| `OwnershipLaws.RequestFailed` | src/multiplexer.rs:665-677 | a failed bus call leaves every store as it was |
| `OwnershipLaws.ReplyIsTrue` | src/multiplexer.rs:645-677 | with a cooperating bus the client is told 1 or 4 exactly if it is the primary, 2 exactly if it waits, 3 exactly if it is not in line, and gets an error exactly if the bus call failed |
| `OwnershipLaws.StepAgreesIffBusCooperates` | src/multiplexer.rs:597-770 | from an agreeing state a step keeps the four stores in agreement exactly when the bus cooperates with it |
| `OwnershipLaws.StoresAgreeOverRuns` | src/multiplexer.rs:310-446 | over every run the stores agree at every point exactly when the bus cooperates with every step |
| `OwnershipLaws.FailedReleaseHeals` | src/multiplexer.rs:415-446 | a release that fails upstream breaks the agreement, and the client's disconnect restores it exactly if the bus cooperates then and the second try at that name succeeds |
| `OwnershipLaws.StartupAgrees` | src/multiplexer.rs:163-184 | the synchronised start-up state agrees, whatever names the buses listed |
| `OwnershipLaws.HeldNamesRouteToContainer` | src/routing.rs:124-128 | in an agreeing state a client-held well-known name is routed to the container |
| `OwnershipLaws.RegistryKeptIff` | src/routing.rs:174-177 | a cooperating step keeps every primary's unique name routed to the container exactly unless it releases the only place of a client that heads another name |
| `OwnershipLaws.RegistryKeptOverRuns` | src/routing.rs:147-177 | over every cooperating run from start-up, messages to a primary's unique name are routed to the container at every point exactly while no step is such a release |
| `OwnershipLaws.UniqueNameRoutes` | src/multiplexer.rs:373-446 | a cooperating step routes a client's unique name to the container if it makes it a primary, to the host if it releases a name nobody else waits for or goes while a primary, and else leaves the route |
| `OwnershipLaws.TwoNamesReached` | src/multiplexer.rs:644-663 | the witness state is reached by one client being granted two names |
| `OwnershipLaws.ReleaseForgetsPrimary` | src/multiplexer.rs:744-755 | releasing one of two names makes the client's unique name route to the host |
| `OneShotTable.OriginSound` | src/serial_map.rs:79-121 | an entry is present exactly if some put under its key is untouched since, and holds that put's value |
| `OneShotTable.AnsweredOnce` | src/serial_map.rs:95-106 | no put is answered by two takes |
| `OneShotTable.Conservation` | src/serial_map.rs:79-121 | puts are exactly those taken, swept, overwritten or still present |
| `Serials.SerialGenerator.Next` | src/serial_map.rs:164-172 | the serial and counter after the two wrapping fetch_adds; never 0 |
| `Serials.SerialFormula` | src/serial_map.rs:155-172 | the k-th serial is (k mod (2^32 - 1)) + 1 |
| `Serials.SerialsRepeatIff` | src/serial_map.rs:155-172 | two serials are equal exactly at multiples of 2^32 - 1 calls apart |
| `Serials.InterleavedNonzero` | src/serial_map.rs:164-172 | with fetch_adds of any callers interleaved, a call returns 0 exactly if its own two are a positive multiple of 2^32 apart |
| `Serials.InterleavedDistinct` | src/serial_map.rs:164-172 | with fetch_adds interleaved, two calls return the same serial exactly if their last ones are a multiple of 2^32 apart |
| `Router.SerialMap.Insert` | src/serial_map.rs:79-93 | the pending call is stored under its bus and serial |
| `Router.SerialMap.Remove` | src/serial_map.rs:103-106 | the call under the key is returned and gone |
| `Router.SerialMap.CleanupExpired` | src/serial_map.rs:111-121 | exactly the calls as old as the timeout are dropped and counted |
| `Router.MessageRouter.ForwardMethodCall` | src/router.rs:73-124 | one serial is drawn, the forwarded bytes differ only in carrying it, the call is recorded under it once sent, and the zero-serial rejection never happens |
| `Router.MessageRouter.HandleReply` | src/router.rs:129-160 | the pending call under the reply serial is used up and its client and serial returned |
| `Traffic.Multiplexer.HandleReply` | src/multiplexer.rs:1323-1376 | the correlated call is used up, a portal handle in the reply is registered for its client, and the reply goes to that client with its original serial, if still connected |
| `Traffic.Multiplexer.HandleResponse` | src/multiplexer.rs:1393-1447 | a tracked response is used up and goes to its client, if connected, readdressed to it on the rewritten path, or unchanged if that is no object path; an untracked one is left alone |
| `Traffic.Multiplexer.ForwardCall` | src/router.rs:73-124 | a forward is the forwarding step of the machine, and the bytes sent differ only in the serial drawn |
| `Traffic.Multiplexer.UnregisterClient` | src/multiplexer.rs:310-364 | a disconnect drops the client and its portal requests, and leaves its pending calls |
| `Traffic.Multiplexer.RunCleanup` | src/multiplexer.rs:247-258 | one tick drops exactly the expired calls and the expired portal requests |
| `Traffic.OpsMakeTables` | src/multiplexer.rs:1323-1447 | over every run the pending calls and portal requests are the tables of one-shot operations that the events amount to |
| `ReplyLaws.CorrelatedIsCall` | src/router.rs:137-150 | over every run the entry a reply is correlated with is exactly the call it answers |
| `ReplyLaws.DeliveryAnswersACall` | src/multiplexer.rs:1323-1373 | over every run a delivered reply answers an earlier call of that client on that bus, under the serial it was forwarded with, and carries that call's own serial |
| `ReplyLaws.CallAnsweredOnce` | src/router.rs:137-150 | no call is answered twice |
| `ReplyLaws.ReplyAnswersItsCallIff` | src/router.rs:105-150 | a reply with a call's serial answers that call exactly if it is not yet answered, timed out or superseded by reuse of its serial |
| `ReplyLaws.ReplyAnswersCallOrReuse` | src/router.rs:105-150 | otherwise it can only answer a later call that reuses the serial |
| `ReplyLaws.ReplyReachesOnlyItsCaller` | src/router.rs:73-160 | with fewer than 2^32 - 1 further calls on the bus the reply reaches its caller or nobody |
| `ReplyLaws.ReuseMisdelivers` | src/serial_map.rs:86-92 | one call more, and a run exists in which another client gets the reply |
| `ReplyLaws.DepartedStaysGone` | src/client.rs:34-36 | a departed client's id is never connected again |
| `ReplyLaws.DepartedGetsNoReply` | src/multiplexer.rs:1354-1372 | a reply to a departed client's call reaches nobody |
| `ReplyLaws.CallsConserved` | src/serial_map.rs:79-121 | calls sent are exactly those answered, expired, displaced or pending |
| `ReplyLaws.CallsConservedExactly` | src/serial_map.rs:79-121 | without serial reuse, calls sent = replies correlated + entries expired + entries pending |
| `ReplyLaws.PendingAgeBound` | src/multiplexer.rs:247-252 | with cleanups at most P apart no pending call is as old as timeout + P |
| `ReplyLaws.CleanupDropsDueCalls` | src/serial_map.rs:111-121 | a clean-up drops exactly the calls whose timeout has passed and keeps the rest |
| `Wire.EncodeDecodes` | src/message.rs:189-194 | four bytes in either order decode to the number they encode |
| `Wire.HeaderLayout` | src/client.rs:408-424 | body length, serial and fields length are bytes 4, 8 and 12 on, least significant first exactly after an 'l' |
| `Wire.BodyStartsAligned` | src/client.rs:426-430 | the frame is the header and fields, padding to the next multiple of 8, and the body |
| `Wire.TotalSizeWraps` | src/client.rs:426-430 | the computed frame size is the real one less 2^32 or 2^33 once that is reached |
| `Wire.TotalSizeExactIff` | src/client.rs:426-430 | the wrapping frame size equals the real one exactly if that fits 32 bits |
| `Wire.LimitsPreventOverflow` | src/client.rs:426-430 | header and message within the format's limits never overflow |
| `Wire.CloneMessageWithSerial` | src/message.rs:177-210 | fails exactly on serial 0; otherwise only bytes 8 to 11 change and decode to the new serial in the message's byte order |
| `Wire.PatchKeepsFrame` | src/message.rs:184-207 | the patched message has the same byte order, lengths, frame size and everything after the header |
| `Framing.ClientHandler.ReadExact` | src/client.rs:248-272 | succeeds exactly if enough bytes remain, and returns the next ones of pending data and socket together |
| `Framing.ClientHandler.ReadExactIntoBuf` | src/client.rs:221-245 | the same into the read buffer, whose earlier bytes stay |
| `Framing.ClientHandler.ReadMessage` | src/client.rs:395-453 | one read yields what framing the remaining bytes directly yields, and consumes exactly the frame |
| `Framing.ClientHandler.ReadAll` | src/client.rs:481-511 | repeated reads yield exactly the frames of the remaining bytes |
| `Framing.FramesPartitionStream` | src/client.rs:395-453 | the frames and the unread rest make up the stream: no byte lost or repeated |
| `Framing.FramesOfConcat` | src/client.rs:395-453 | any list of well-formed messages, concatenated, is framed back into that list |
| `Framing.ReadEnds` | src/client.rs:395-442 | no message comes exactly if fewer than 16 bytes do, and it is cut off exactly if fewer than the computed size do |
| `Framing.ReadOutcomes` | src/client.rs:426-453 | exactly which pairs of length fields make a read obey the header, return a frame 2^32 bytes short, or panic |
| `Framing.UncheckedLengthsFail` | src/client.rs:427-430 | two concrete headers: one is taken for a whole message and its fields for the next, one panics |
| `Framing.OversizedNotReadBack` | src/client.rs:427-430 | a message is read back as itself exactly if it is shorter than 2^32 bytes |
| `Auth.UidRoundTrip` | src/auth.rs:206-226 | every 32-bit user id survives hex encoding and parsing |
| `AuthLaws.ParseHexUidIff` | src/auth.rs:206-217 | a user id is accepted exactly if hexadecimal pairs of either case spell a decimal numeral below 2^32, and is that number |
| `AuthLaws.LineTaken` | src/auth.rs:186-203 | a line is the text before LF, CRLF or the end of the stream, refused exactly if it is no UTF-8 or empty |
| `AuthLaws.EveryLine` | src/auth.rs:186-203 | every stream splits off its first line in that way |
| `Utf8.ValidUtf8Iff` | src/auth.rs:186-188 | the test on a line's bytes passes exactly the encodings of sequences of Unicode scalar values |
| `Auth.BufReader.FillBuf` | src/auth.rs:72-75 | any chunk of the stream may be buffered; nothing is lost |
| `Auth.BufReader.ReadLine` | src/auth.rs:186-203 | for every chunking, the line, the error and the rest are those of the plain stream |
| `Auth.SaslAuth.FinishAuth` | src/auth.rs:142-182 | for every chunking, replies, verdict and leftover bytes are those of the plain stream |
| `Auth.SaslAuth.AuthenticateServer` | src/auth.rs:62-139 | the same for the whole exchange, including rejected attempts and the challenge |
| `AuthLaws.ServerFollowsProtocol` | src/auth.rs:62-182 | on every input, replies, verdict, error and leftover are those of the protocol's server: waiting for AUTH, for DATA, for BEGIN |
| `StreamLaws.AuthLeavesAfterBegin` | src/auth.rs:62-181 | whatever the input, success leaves exactly the bytes after the first line that is BEGIN |
| `StreamLaws.HandshakeAccepted` | src/auth.rs:62-182 | every conforming handshake authenticates the user id it carries; it is told REJECTED once per rejected line, DATA exactly if it gave no user id at once, OK with the server's GUID, AGREE_UNIX_FD exactly if it asked; what follows is untouched |
| `StreamLaws.ServeClient` | src/client.rs:173-217 | an accepted client gets the replies of the protocol and its messages are the frames of what authentication leaves, however the bytes were split |
| `StreamLaws.SessionDeliversMessages` | src/client.rs:173-217 | handshake plus any list of well-formed messages is read as exactly those messages |
| `StreamLaws.AcceptedMessagesDelivered` | src/client.rs:395-453 | for every accepted input, messages within the format's limits after the first BEGIN line are exactly those read |
| `Decimal.ParseDigits` | src/auth.rs:213-214 | a printed number parses back exactly if it fits |
| `Decimal.ParseUnsignedIff` | src/match_rules.rs:121-122 | a number is read exactly from an optional '+' and digits whose value does not exceed the maximum |
| `MatchRules.ArgPathLong` | src/match_rules.rs:118-120 | a key starting with "arg" and ending with "path" has both, so the slice is in bounds |
| `MatchRules.Parse` | src/match_rules.rs:48-146 | the loop terminates on every text and computes the parse of it, errors included |
| `MatchRules.AcceptedRuleInRange` | src/match_rules.rs:120-136 | an accepted rule keeps its text and filters only arguments 0 to 63 |
| `MatchRuleText.KeyApplies` | src/match_rules.rs:108-137 | every recognised key, with any index up to 63, sets its field |
| `MatchRuleText.PrintParseRoundTrip` | src/match_rules.rs:48-146 | any list of pairs, bare or quoted, recognised keys or unknown ones, with any whitespace, commas optional after quotes, parses to the last-wins fold of the list |
| `MatchRuleText.TrailingComma` | src/match_rules.rs:74-82 | so it does with a comma at the end |
| `MatchRuleText.RefusedWithoutEquals` | src/match_rules.rs:85-86 | after any such pairs, a further text without an equals sign is refused and named |
| `MatchRuleText.RefusedUnclosed` | src/match_rules.rs:94-95 | a quote that is not closed is refused |
| `MatchRuleText.RefusedIndex` | src/match_rules.rs:118-136 | an argument key whose index is no numeral up to 63 is refused and named |
| `MatchRuleText.ArgIndexDecides` | src/match_rules.rs:129-136 | an argument key filters that argument exactly if its index is a numeral up to 63, however spelt |
| `MatchRuleText.ArgPathIndexDecides` | src/match_rules.rs:118-127 | the same for argument path keys |
| `MatchRules.WhiteSpaceIs` | src/match_rules.rs:65-76 | what is trimmed are the 25 white space code points |
| `MatchFilter.ExtractStringArgs` | src/match_rules.rs:376-413 | the texts of the arguments up to the 8-bit cut |
| `MatchFilter.TestArgFilters` | src/match_rules.rs:222-257 | for any map iteration order, the early-returning loops decide that every argument filter passes |
| `MatchFilter.CutIsExact` | src/match_rules.rs:382-403 | the cut changes no answer, for any number of arguments |
| `MatchFilter.IgnoringDestination` | src/match_rules.rs:149-369 | the relaxed matcher is the full one without the destination; the full one adds exactly the destination test; both equal testing all arguments |
| `MatchMeaning.MatchesIffMet` | src/match_rules.rs:149-369 | a rule matches exactly the messages whose named header or argument satisfies each of its demands; the relaxed form leaves out the destination |
| `MatchMeaning.EavesdropIff` | src/match_rules.rs:116-116 | eavesdropping is recorded exactly if the last value written for it is "true" |
| `MatchMeaning.TextMatchesIff` | src/match_rules.rs:48-369 | from text to message: a printed rule matches exactly the messages that satisfy, for each key, the last value written for it |
| `Namespaces.UnderIsComponentPrefix` | src/match_rules.rs:199-209 | the string test holds exactly if the namespace's components are a prefix of the name's |
| `Namespaces.PathNamespaceExactIff` | src/match_rules.rs:203-205 | on object paths the test is the namespace relation exactly if the namespace is not the root or the path is |
| `Namespaces.RootNamespaceMatchesOnlyRoot` | src/match_rules.rs:203-205 | the root namespace does not match /a |
| `Subscriptions.MatchRuleRefCount.Increment` | src/match_rules.rs:580-585 | the count rises by one; true exactly for the first reference |
| `Subscriptions.MatchRuleRefCount.Decrement` | src/match_rules.rs:589-601 | the count falls by one and vanishes at zero; true exactly for the last reference |
| `Subscriptions.WithRuleHolds` | src/match_rules.rs:505-510 | adding makes the rule held and nothing else, and keeps rule texts distinct |
| `Subscriptions.WithoutRuleHolds` | src/match_rules.rs:513-517 | removing makes exactly that rule text not held |
| `Subscriptions.Multiplexer.HandleAddMatch` | src/multiplexer.rs:1126-1184 | the whole new state; refused exactly if the text does not parse, with the parser's error |
| `Subscriptions.Multiplexer.HandleRemoveMatch` | src/multiplexer.rs:1203-1262 | the whole new state; found exactly if the client held the rule |
| `Subscriptions.Multiplexer.HandleDisconnect` | src/multiplexer.rs:310-355 | every rule of the client is dropped on both buses |
| `Subscriptions.Multiplexer.ForwardSignal` | src/multiplexer.rs:1492-1528 | the recipients are the clients with a matching rule, in any iteration order |
| `SubscriptionLaws.CountsAreHoldersPlusRedundantAdds` | src/multiplexer.rs:1140-1258 | over every run a rule's count on each bus is its number of holders plus the redundant adds of it, no stored count is 0, and it is installed exactly if its count is at least 1 |
| `SubscriptionLaws.RulesMirroredWhileHeld` | src/match_rules.rs:558-601 | both buses agree, a held rule is never withdrawn, and counts are exact exactly without redundant adds |
| `SubscriptionLaws.SignalReachesExactlySubscribers` | src/multiplexer.rs:1475-1528 | after any run a signal goes to exactly the clients holding a rule text whose parse it satisfies, and that rule is installed on both buses |
| `SubscriptionLaws.SignalReachesIffSatisfied` | src/multiplexer.rs:1475-1528 | after any run a client is sent a signal exactly if it satisfies, for one of the rule texts it holds, the last value of each key |
| `SubscriptionLaws.HoldsIff` | src/multiplexer.rs:1126-1262 | over every run a client holds a rule exactly from an accepted AddMatch to its RemoveMatch or the client's disconnect |
| `SubscriptionLaws.ConnectedIff` | src/multiplexer.rs:290-323 | over every run a client is connected exactly from the connect that gave it its id to its disconnect |
| `SubscriptionLaws.RepeatedAddLeaksRule` | src/multiplexer.rs:1142-1156 | adding twice and removing leaves a rule installed for nobody |
| `PortalRequests.PortalRequestTracker.Register` | src/portal_request.rs:53-63 | the latest registration of a path replaces the earlier one |
| `PortalRequests.PortalRequestTracker.LookupAndRemove` | src/portal_request.rs:68-85 | the registered client is returned and the entry used up |
| `PortalRequests.PortalRequestTracker.CleanupExpired` | src/portal_request.rs:88-104 | exactly the entries as old as the timeout are dropped and counted |
| `PortalRequests.PortalRequestTracker.RemoveClient` | src/portal_request.rs:107-122 | exactly the client's entries are dropped and counted |
| `PortalLaws.RoutedByIff` | src/multiplexer.rs:1393-1398 | over every run a response is routed by a registration of its path exactly while nothing has ended that: no later registration, response, time-out or disconnect |
| `PortalLaws.ResponseGoesToCallerIff` | src/multiplexer.rs:1323-1447 | over every run a response reaches a client exactly if its path was the handle in the reply to a call of that client, still standing, and the client is connected |
| `PortalLaws.ReplyCameFirst` | src/multiplexer.rs:1325-1366 | that client was sent the reply with the handle too, under its own serial |
| `PortalLaws.CallGetsOneResponse` | src/portal_request.rs:65-77 | no registration routes two responses and no call gets two |
| `PortalLaws.ResponseReachesOnlyItsCaller` | src/multiplexer.rs:1325-1398 | with fewer than 2^32 - 1 further calls before the reply, the response reaches the client whose call it answers or nobody |
| `PortalLaws.PortalRoundTrip` | src/multiplexer.rs:1323-1447 | call, reply with a handle on the multiplexer's request path, response: the caller gets the response, addressed to it, on its own request path |
| `PortalLaws.HandleIff` | src/portal_request.rs:204-240 | a handle is exactly an object path under the portal's request directory in a reply that is no error |
| `PortalLaws.CleanupDropsDueRequests` | src/portal_request.rs:88-104 | a clean-up drops exactly the requests whose timeout has passed, none younger |
| `PortalLaws.RequestAgeBound` | src/multiplexer.rs:247-258 | with clean-ups at most P apart no tracked request is as old as timeout + P |
| `PortalPaths.BusComponent` | src/message.rs:371-375 | the path component of a bus-issued unique name |
| `PortalPaths.ClientComponent` | src/message.rs:371-375 | the path component of a client's unique name |
| `PortalPaths.RewrittenRequestPath` | src/message.rs:332-334 | a request path is rewritten in its sender element and inside its token, nowhere else |
| `PortalPaths.RewriteIsClientPathIff` | src/message.rs:329-334 | the result is the client's own request path exactly if the token lacks the multiplexer's component |
| `PortalPaths.DeliveredPath` | src/message.rs:329-336 | the rewritten request path is always an object path, so it is what the client gets |
| `PortalPaths.ObjectPathIff` | src/message.rs:335-336 | the test made on the rewritten text: the root, or a leading slash, no trailing one, no two in a row, and path characters |
| `PortalPaths.NoMuxNameForwardsOriginal` | src/multiplexer.rs:1403-1427 | a signal whose rewritten path is no object path is forwarded unchanged, as all are while the multiplexer has no unique name |
| `PortalPaths.TokenIsRewrittenToo` | src/message.rs:334-334 | a token containing the component is corrupted: a concrete path, name by name |
| `PortalPaths.ColonsTrimmed` | src/message.rs:371-373 | every leading colon of a unique name goes |
| `PortalPaths.ClientsGetDistinctPaths` | src/message.rs:329-336 | on request paths different clients never get the same rewritten path, whatever the tokens |
| `PortalPaths.OneElementRewritten` | src/message.rs:329-334 | if the component occurs once in any path, as its k-th element, first, middle or last, exactly that element becomes the client's |
| `PortalPaths.RewriteInjective` | src/message.rs:329-334 | with the component at the same element, two rewritten paths are equal exactly if the original paths and the clients are |
| `PortalPaths.OneElementDelivered` | src/message.rs:332-343 | on an object path the signal is delivered with that path and the client as destination, and otherwise unchanged |

## Left out

- Sockets, channels, locks, file descriptors, zbus and zvariant encoding: a message is a record of header strings and arguments, or the bytes of its frame; zbus's own validation of a frame is not modelled.
- Lock-level interleavings inside one handler, and client messages still queued when their sender is disconnecting, except that every step accepts ids that are no longer connected.
- Client ids are natural numbers: the wrap of the 64-bit id counter is not modelled.
- Reads cancelled half-way when another branch of the client loop fires: only completed reads are covered.
- NameOwnerChanged echoes in the ownership invariant: a late echo can make the routing table briefly stale.
- Failing upstream AddMatch and RemoveMatch calls, whose results the source ignores: counts and installed rules are related for succeeding calls.
- The branch that forwards a reply unchanged when the client's own serial is 0: zbus never parses such a message.
- Arithmetic overflow in frame sizes follows a release build, which wraps; a debug build would stop instead.
- The tuple fallbacks of argument extraction and the decoding of reply and portal bodies, which depend on zvariant: a reply is an error, a single object path or anything else.
- `set_*` and `all_names` of the routing table, Introspect, GetAll, Ping, GetId, machine id and credential replies: constant or single-lookup answers.
- Start-up, the command line, error types and logging.
