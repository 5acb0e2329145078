# A verified model of the tsshd roaming transport

tsshd keeps an SSH session alive over UDP while the client changes its address, its network and its
traffic keys, and while another client attaches to the session. This project models the protocols
and data structures behind that in Dafny and proves what they guarantee in every run, together with
two exact text functions of tssh: the ssh time format and the port list.

`dafny verify dfyconfig.toml` checks everything.

## How the model is laid out

| file | models |
|---|---|
| `KeyRing.dfy` | the list of traffic keys of one endpoint, and its two updates |
| `Rekey.dfy` | the key-rotation protocol as a state machine over a lossy, duplicating, reordering network |
| `RotatingCrypto.dfy` | the object that holds the keys, and sealing and opening packets in place |
| `Roaming.dfy` | which UDP address speaks for which client, step by step, with timeouts in between |
| `Reauth.dfy` | the re-authentication handshake end to end, for one client |
| `AddressIndex.dfy` | the client states, the two address maps and the cached lookup, as objects |
| `AddressMap.dfy`, `IndexRaces.dfy`, `IndexOwners.dfy`, `WipedEntry.dfy` | the same maps and lookup when timeouts and setters interleave |
| `PacketCache.dfy` | the packets kept for replay during an outage |
| `TimeoutChecker.dfy` | the heartbeat checker's event loop and its waiters |
| `ReplaceableStream.dfy`, `ReplaceableChecker.dfy`, `SessionAttach.dfy` | attach and detach |
| `Wire.dfy`, `BusFraming.dfy`, `TcpFrames.dfy`, `TcpProgress.dfy`, `UdpForward.dfy`, `UdpChannels.dfy` | framing and hand-off of bytes and datagrams |
| `SshTime.dfy`, `PortRanges.dfy`, `PortLists.dfy` | the two text formats |
| `Common.dfy` | `Option` and bytes |

Concurrent code is a `datatype State`, a `datatype Action` with one constructor per atomic operation
of a goroutine or event of the network, and a total function `Step`. `Exec(actions)` is the state
after any sequence of actions, so a lemma over `Exec(actions)` speaks about every run and every
interleaving. Code that one goroutine runs at a time is a class, or a method with loops, proved
against functions of its inputs or of its old state.

Cryptography is abstract. A packet opens under the key that sealed it and under no other key of the
list, and a key is named by the two ephemeral keys it was derived from. Authentication packets
cannot be forged, but they can be lost, repeated and reordered. AES-GCM is meant in the sense of
sections 7.1 and 7.2 of NIST SP 800-38D, key derivation in the sense of section 2 of RFC 5869.
Clocks, random numbers and what the network does are inputs.

## Where the code is not what it seems

Each of these is a lemma, with the exact condition under which the intended property holds.

- `copy(ciphertext[:0], plaintext)` has a destination of length zero and copies nothing. The buffer
  ends as nonce and plaintext if and only if the newest key of the list opened the packet (or the
  ciphertext happens to begin with the plaintext): `RotatingCrypto.RoundTripRestoresIff`. During a
  key change first the client's packets are affected and then the server's, and never both at once:
  `Rekey.ClientPacketsAreGarbled`, `Rekey.ServerPacketsAreGarbled`, `Rekey.NeverBothDirectionsGarbled`.
  The packets that carry the key change itself are never affected: `Rekey.RekeyMessagesOpenUnderNewestKey`.
- A request that the server fails to answer leaves `rekeyInFlight` set, so no key is ever installed
  again on either side: `Rekey.RefusalIsFinal`, and `Rekey.RefusalIsReachable` for the very first one.
- A client that re-authenticates from the address that is already effective is not acknowledged; its
  packets are passed on as data. The address stays effective exactly until a timeout clears it or
  another address is promoted, and all that time nothing is acknowledged to it, unless the lookup
  misses it (see below) and it is handled as unknown: `Roaming.NeverAcknowledgedWhileEffective`,
  `Roaming.EffectiveAddressLostIff`, `Roaming.TimeoutRestoresAcknowledgement`.
- With several listening ports, the start-up probe raises the serial number before it stores the
  address. A reader whose first call falls in between can accept a newer address, which the probe
  then overwrites: `Reauth.ProbeCanOverwriteNewerAddress`. A reader that was already waiting for the
  socket is held back by the mutex. With one port there is no probe and no race; the
  handshake keeps its promise exactly then: `Reauth.AlwaysAgreedIff`.
- The lookup of an address never gives a wrong answer, but it can miss a bound address even when no
  setter is at work. A timeout swaps an address out of a client, the client becomes effective from
  the same address again, and the timeout then deletes the new map entry:
  `WipedEntry.LiveEntryIsWipedOut`. Nothing is missed in a run if and only if no setter in it deletes
  or replaces a live entry: `IndexRaces.MissesNothingIff`. Without a start-up probe, the first such
  step is always a delete that comes late in this way: `IndexOwners.FirstWipeIsLateDelete`. Until then
  the lookup is exact: `IndexOwners.LookupIsExactUnlessWiped`.
- A stream that passed the check for the active server can register its session after another server
  has been activated. That session belongs to the old server, and no other one does:
  `SessionAttach.LateStartStaysWithOldServer`, `SessionAttach.SessionsBelongToActiveServer`.
- A session gets its streams some time after it is registered. If a new server detaches it before
  that, the detached session ends up holding the old server's stream. This is the only way in which
  a stream and its session disagree: `SessionAttach.StreamMadeAfterDetachStays`,
  `SessionAttach.StreamsFollowServerIff`. An attached session is always whole:
  `SessionAttach.AttachedBelongsToActiveServer`.
- In attachable mode one reader serves all TCP connections, in the order of their signals. A packet
  that has arrived waits behind any packet of another client that was announced before it and has
  not arrived. It can be delivered without more input if and only if there is none:
  `TcpProgress.NextPacketDeliveredIff`, and `TcpProgress.HeldUpIsReachable` for a run.
- A packet longer than 65535 bytes on a TCP connection, or a bus message of 2^32 bytes or more, is
  framed with a truncated length: `Wire.TakeReadsBackIff`, `BusFraming.MessageReadsBackIff`.

## Model

| member | source | states |
|---|---|---|
| `KeyRing.FirstIndex` | tsshd/tsshd/rekey.go:129-146 | trying the keys in order stops at the first one that fits, exactly when one fits |
| `KeyRing.RingAfter` | tsshd/tsshd/rekey.go:198-251 | after promoting a key it is the sealing key and exactly the older ones are gone; after installing one all others stay, and it seals only if asked to |
| `Rekey.StepKeepsInv` | tsshd/tsshd/rekey.go:120-152 | every step of either endpoint, of the bus or of the network keeps the protocol invariant, also when a key is installed between reading the list and promoting |
| `Rekey.ReachableInv` | tsshd/tsshd/rekey.go:253-354 | the invariant holds after every run |
| `Rekey.EpochBounds` | tsshd/tsshd/rekey.go:198-251 | the two lists are intervals of epochs with cl <= sl <= ch <= sh <= ch+1, ch <= cl+1 and sh <= sl+1 |
| `Rekey.SealedPacketsOpen` | tsshd/tsshd/rekey.go:120-152 | after every run, the key that either side seals with is in the other side's list, and no side holds more than two keys |
| `Rekey.SealingEpochNeverGoesBack` | tsshd/tsshd/rekey.go:235-251 | from any moment of a run to any later one, neither side's sealing epoch falls, although promoting resets the active index to 0 |
| `Rekey.AcceptedEpochsAreSorted` | tsshd/tsshd/rekey.go:129-146 | the epochs of the packets a side has opened are non-decreasing in every run |
| `Rekey.RekeyMessagesOpenUnderNewestKey` | tsshd/tsshd/rekey.go:253-290 | the packet that brings the next request or reply was opened by the last key of the receiver's list, before and after |
| `Rekey.FinishOpenKeeps` | tsshd/tsshd/rekey.go:235-251 | promoting keeps the newest key, drops every older one, and leaves an interval of epochs |
| `Rekey.InstallKeepsSide` | tsshd/tsshd/rekey.go:198-233 | installing the key of the next exchange extends the interval by exactly one epoch |
| `Rekey.GarbledIff` | tsshd/tsshd/rekey.go:129-135 | a direction loses the plaintext exactly while its receiver holds a newer key than its sender seals with |
| `Rekey.NeverBothDirectionsGarbled` | tsshd/tsshd/rekey.go:154-171 | in every run the two conditions of the zero-length copy are characterised, and they never hold together |
| `Rekey.RekeyCanCompleteIff` | tsshd/tsshd/rekey.go:292-354 | from every reachable state with an unanswered request there is a continuation that installs its key at the client and allows the next rekey, if and only if the server did not refuse it |
| `Rekey.IdleCanRotate` | tsshd/tsshd/rekey.go:253-354 | from every reachable state in which no rekey is in flight there is a continuation in which both sides install the key of the next epoch |
| `Rekey.AbortedCanRotate` | tsshd/tsshd/rekey.go:281-289 | a request that could not be sent resets the in-flight flag: the next rekey can be carried through from there |
| `Rekey.PrivateKeyHeldIff` | tsshd/tsshd/rekey.go:292-330 | in every run the client holds a private key exactly while a request is unanswered or its handler has not cleared it yet, or after a request that could not be sent |
| `Rekey.RefusalIsFinal` | tsshd/tsshd/bus.go:244-258 | after a refused request no continuation ever installs another key on either side |
| `Rekey.RefusalIsReachable` | tsshd/tsshd/rekey.go:332-354 | the run in which the first request is refused, after which no continuation installs a key |
| `Rekey.ClientPacketsAreGarbled` | tsshd/tsshd/rekey.go:332-354 | a run after which what the client seals is opened by an older key of the server |
| `Rekey.ServerPacketsAreGarbled` | tsshd/tsshd/rekey.go:307-330 | a run after which what the server seals is opened by an older key of the client |
| `RotatingCrypto.OpenIndexIsFirstIndex` | tsshd/tsshd/rekey.go:129-146 | when a packet opens under one key of the list only, trying the keys finds that key where the protocol model says |
| `RotatingCrypto.RestoredIff` | tsshd/tsshd/rekey.go:154-171 | the buffer ends as nonce and plaintext if and only if the last key opened it or the ciphertext begins with the plaintext |
| `RotatingCrypto.RoundTripRestoresIff` | tsshd/tsshd/rekey.go:101-171 | seal then open gives the original length always, and the original bytes under exactly that condition |
| `RotatingCrypto.ByteTriggerFiresOnce` | tsshd/tsshd/rekey.go:181-196 | over any sequence of calls between two key installations at most one rekey is started; one is started exactly if the sum reaches the threshold, for any sum, unless a single call can wrap the 64-bit counter |
| `RotatingCrypto.ZeroThresholdNeverFires` | tsshd/tsshd/rekey.go:181-184 | with a threshold of 0, as both of the server's objects have it, no sequence of calls starts a rekey or changes a counter |
| `RotatingCrypto.CounterIsSum` | tsshd/tsshd/rekey.go:186-195 | with a positive threshold the counter is the 64-bit sum of all calls, before and after it fires, and the flag says whether it fired |
| `RotatingCrypto.RotatingCrypto.ConsumeAndStart` | tsshd/tsshd/rekey.go:181-279 | what the byte count asks for is started unless the object is closed or a rekey is in flight, however recent the last rekey is |
| `RotatingCrypto.CopyInto` | tsshd/tsshd/rekey.go:165-168 | Go's copy into a slice of a buffer: as many bytes as fit, everything else untouched |
| `RotatingCrypto.RotatingCrypto.constructor` | tsshd/tsshd/rekey.go:366-399 | one key, active, counters at zero |
| `RotatingCrypto.RotatingCrypto.InstallKey` | tsshd/tsshd/rekey.go:198-233 | the object's list becomes what the protocol step says; counters and the in-flight flag are reset |
| `RotatingCrypto.RotatingCrypto.PromoteKey` | tsshd/tsshd/rekey.go:235-251 | the object's list becomes what the protocol step says, and nothing else changes |
| `RotatingCrypto.RotatingCrypto.ConsumeBytes` | tsshd/tsshd/rekey.go:181-196 | the counters follow the metering function whose total effect is proved; a start is asked for only with a positive threshold that is reached |
| `RotatingCrypto.RotatingCrypto.StartRekey` | tsshd/tsshd/rekey.go:253-290 | a rekey starts if and only if the object is open, none is in flight, and the byte threshold is reached or half the time threshold has passed since the last one |
| `RotatingCrypto.RotatingCrypto.SealPacket` | tsshd/tsshd/rekey.go:77-118 | the packet is the nonce and the payload sealed with the active key, in place only when asked and the room suffices; otherwise the input is untouched; the payload is metered |
| `RotatingCrypto.RotatingCrypto.OpenPacket` | tsshd/tsshd/rekey.go:120-171 | exact result, buffer, key list and meter for every input: too short, no key, newest key, older key |
| `RotatingCrypto.RotatingCrypto.TryKeys` | tsshd/tsshd/rekey.go:129-146 | the first key that opens the packet, with the buffer written only by the newest |
| `RotatingCrypto.RotatingCrypto.AfterOpen` | tsshd/tsshd/rekey.go:140-144 | a key other than the oldest is promoted and not metered; the oldest is metered and nothing promoted |
| `Roaming.NewHolderWasAccepted` | tsshd/tsshd/proxy_server.go:371-477 | an address begins to speak for a client only in the step that raises the client's serial number for a packet from there |
| `Roaming.HolderWasAccepted` | tsshd/tsshd/proxy_server.go:205-218 | over every run, whatever address holds a role was bound that way; replays and timeouts bind nothing |
| `Roaming.AcceptedPacketArrived` | tsshd/tsshd/proxy_server.go:436-463 | that serial number is the one of an authentication packet of the client that arrived from that address before |
| `Roaming.DeliveredOnlyFromAcceptedAddress` | tsshd/tsshd/proxy_server.go:384-417 | over every run of single loads and stores, with any sound lookup, a packet reaches QUIC or KCP only from such an address, attributed to that client |
| `Roaming.DeliveredIff` | tsshd/tsshd/proxy_server.go:384-417 | over every run, a step hands a packet to QUIC or KCP if and only if it ends the handling of a datagram of more than 16 bytes that was found effective, or whose authenticated address has just been made effective; client and address are those of the lookup |
| `Roaming.PromotesWhatIsAuthenticated` | tsshd/tsshd/proxy_server.go:396-417 | over every run, a data packet from an authenticated address makes effective the address that is authenticated when the reader loads it again, which need not be the packet's, and changes nothing if there is none any more |
| `Roaming.AcknowledgedIff` | tsshd/tsshd/proxy_server.go:425-475 | over every run, a step acknowledges if and only if it ends the handling of an authentication packet that was neither refused nor found effective, with its serial number, or with the stored one if that changed meanwhile |
| `Roaming.SerialNeverGoesBack` | tsshd/tsshd/proxy_server.go:436-463 | over every run no event lowers a client's serial number |
| `Roaming.EffectiveAddressLostIff` | tsshd/tsshd/proxy_server.go:402-409 | a step takes a client's effective address away if and only if it is a timeout's clearing or the promotion of another address |
| `Roaming.NeverAcknowledgedWhileEffective` | tsshd/tsshd/proxy_server.go:387-394 | from any reachable moment at which an address is effective and the reader not about to answer it, in every continuation without such a step in which it is looked up as what it is, it stays effective, nothing is acknowledged to it, and authentication packets from it are delivered as data |
| `Roaming.EffectiveIsReachable` | tsshd/tsshd/proxy_server.go:402-417 | a run that leads there, for any client and address |
| `Roaming.TimeoutRestoresAcknowledgement` | tsshd/tsshd/server.go:131-142 | the packet that is delivered as data there is acknowledged once a timeout has cleared the address |
| `Reauth.NextKeepsInv` | tsshd/tsshd/proxy_server.go:371-477 | every step of client, server, network, timeout and probe, down to single loads, swaps and lost races for the serial number, keeps the handshake invariant |
| `Reauth.ReachableInv` | tsshd/tsshd/proxy_client.go:184-187 | the handshake invariant holds after every run |
| `Reauth.ServerIsNeverAhead` | tsshd/tsshd/proxy_client.go:406-421 | in every run the server's serial number, and every acknowledgement, is at most the client's: the catch-up branch never fires |
| `Reauth.AcceptedMeansAgreed` | tsshd/tsshd/proxy_client.go:395-421 | when the client accepts an acknowledgement, the server's serial number is exactly that one and the client's address is authenticated or effective, unless a timeout or the probe undid it |
| `Reauth.NoProbeNoRace` | tsshd/tsshd/proxy_server.go:175-187 | without a start-up probe no promotion or stale store can undo an accepted address |
| `Reauth.AcceptedMeansAgreedOnOnePort` | tsshd/tsshd/proxy_server.go:179-180 | on one port, acceptance without a timeout since means the client's address is authenticated or effective |
| `Reauth.ProbeCanOverwriteNewerAddress` | tsshd/tsshd/proxy_server.go:189-219 | a concrete run, for any two addresses, in which the probe replaces a newer accepted address by an older one |
| `Reauth.AlwaysAgreedIff` | tsshd/tsshd/proxy_server.go:175-219 | the promise "accepted means bound, unless a timeout intervened" holds in all runs of a server if and only if it listens on one port and so does not probe |
| `Reauth.AttemptSucceedsIff` | tsshd/tsshd/proxy_server.go:371-477 | from every reachable state between two datagrams, a new attempt that arrives gets the acknowledgement the client waits for if and only if it does not come from the effective address |
| `AddressIndex.ScanIsUnique` | tsshd/tsshd/proxy_server.go:328-369 | when no address is owned twice, the plain scan has one answer |
| `AddressIndex.ReindexedKeepsNewIff` | tsshd/tsshd/proxy_server.go:107-133 | adding the new address and then deleting the old one leaves the new one in the map if and only if the two differ |
| `AddressIndex.PromotionKeepsOneOwner` | tsshd/tsshd/proxy_server.go:406-409 | making an authenticated address effective leaves every address with one owner in one role |
| `AddressIndex.ClearingKeepsOneOwner` | tsshd/tsshd/server.go:131-142 | so does clearing either role |
| `AddressIndex.AcceptingKeepsOneOwner` | tsshd/tsshd/proxy_server.go:460-463 | so does authenticating an address that nobody owns |
| `AddressIndex.ExpectedPromotion` | tsshd/tsshd/proxy_server.go:402-417 | a promotion handled in one go is the two protocol steps, and delivers only packets longer than 16 bytes |
| `AddressIndex.ExpectedAgain` | tsshd/tsshd/proxy_server.go:419-434 | an authentication packet from an authenticated address in the protocol model: a foreign id drops the address, an older serial number nothing, any other is stored and acknowledged |
| `AddressIndex.ExpectedAuth` | tsshd/tsshd/proxy_server.go:436-475 | an authentication packet from an unknown address in the protocol model: refused unless newer, else bound and acknowledged |
| `AddressIndex.ExpectedDeliversIff` | tsshd/tsshd/proxy_server.go:384-417 | a datagram is passed on if and only if a scan finds its address effective, or authenticated and it is no authentication packet, and it has more than 16 bytes |
| `AddressIndex.TimeoutIsTwoSteps` | tsshd/tsshd/server.go:131-142 | a timeout handled in one go is the two clearing steps of the protocol |
| `AddressIndex.ClientState.constructor` | tsshd/tsshd/proxy_server.go:718-731 | a new client state has serial number 0 and no address |
| `AddressIndex.UdpFrontend.constructor` | tsshd/tsshd/proxy_server.go:163-187 | a new front end is consistent; outside attachable mode it knows its one client from the start |
| `AddressIndex.UdpFrontend.GetClient` | tsshd/tsshd/proxy_server.go:328-369 | with no setter at work, cache, maps and single client answer exactly what a scan over all clients answers, for every address |
| `AddressIndex.UdpFrontend.SetClientAddr` | tsshd/tsshd/proxy_server.go:107-119 | the field and the map change together; the map stays exact if the new address is not in it |
| `AddressIndex.UdpFrontend.SetAuthedAddr` | tsshd/tsshd/proxy_server.go:121-133 | the same for the authenticated address |
| `AddressIndex.UdpFrontend.Lookup` | tsshd/tsshd/proxy_server.go:733-764 | the client state of an id is created once, found ever after, and no other client changes |
| `AddressIndex.UdpFrontend.Promote` | tsshd/tsshd/proxy_server.go:406-409 | the indexed objects change as the protocol's promotion changes the table, and stay consistent |
| `AddressIndex.UdpFrontend.Timeout` | tsshd/tsshd/server.go:131-142 | the same for a timeout |
| `AddressIndex.UdpFrontend.Accept` | tsshd/tsshd/proxy_server.go:460-463 | the same for a newly accepted address |
| `AddressIndex.UdpFrontend.FromAuthed` | tsshd/tsshd/proxy_server.go:395-434 | case 2 of the reader refines the protocol step over the plain scan |
| `AddressIndex.UdpFrontend.FromUnknown` | tsshd/tsshd/proxy_server.go:436-475 | case 3 of the reader refines it |
| `AddressIndex.UdpFrontend.AuthenticationIsAdmitted` | tsshd/tsshd/proxy_server.go:777-791 | from an address that nobody owns, a client is acknowledged exactly if its serial number is new; outside attachable mode only the one client there is, and any other id changes nothing |
| `AddressIndex.UdpFrontend.HandleDatagram` | tsshd/tsshd/proxy_server.go:371-477 | for every datagram handled without interruption, the indexed reader leaves the clients, and gives the outcome, that the protocol gives with a plain scan; it is passed on under exactly the condition above; every invariant of the index is kept |
| `AddressMap.BeginKeepsComplete` | tsshd/tsshd/proxy_server.go:107-133 | starting a setter, with any others at work, loses no address from the map |
| `AddressMap.AdvanceKeepsCompleteIff` | tsshd/tsshd/proxy_server.go:257-319 | a step of a setter loses an address if and only if it deletes or replaces an entry that is live, and it is then that entry |
| `IndexRaces.LookupIsSound` | tsshd/tsshd/proxy_server.go:328-369 | over every interleaving of the lookup's loads, the setters' swaps, adds and deletes, timeouts and the probe, the protocol sees exactly its own steps, and every answer of the lookup was true when it was given |
| `IndexRaces.DeliveredThroughIndexOnlyFromAcceptedAddress` | tsshd/tsshd/proxy_server.go:384-417 | so with the real lookup, too, packets are delivered only from accepted addresses |
| `IndexRaces.StepMissesNothingIff` | tsshd/tsshd/proxy_server.go:107-133 | from a state in which both maps miss nothing, a step leads to one that misses something if and only if it wipes out a live entry |
| `IndexRaces.MissesNothingIff` | tsshd/tsshd/proxy_server.go:107-133 | at every moment of a run each bound address is mapped or about to be, if and only if no step of the run wipes out a live entry |
| `IndexRaces.UninterruptedLookup` | tsshd/tsshd/proxy_server.go:342-369 | the steps of a lookup, taken one after the other, give the answer of cache, then first map, then second map, and cache only what the first map gave |
| `IndexRaces.EffectiveIsFoundIff` | tsshd/tsshd/proxy_server.go:342-369 | the only owner of an effective address is found if and only if it is cached or mapped, and otherwise nobody is |
| `IndexRaces.MappedLookupIsExact` | tsshd/tsshd/proxy_server.go:328-369 | in any state in which every bound address is mapped and none is owned twice, the answer is that of a scan of all clients |
| `IndexOwners.StepKeepsInv` | tsshd/tsshd/proxy_server.go:371-477 | every step but a probe's, from a state in which nothing is missed, keeps single ownership, what the lookup has ruled out so far, and that only the reader records addresses |
| `IndexOwners.UnknownMeansUnowned` | tsshd/tsshd/proxy_server.go:353-369 | when the steps of a lookup, with timeouts in between, end in "unknown", nobody owns the address at that moment |
| `IndexOwners.NeverTwoOwners` | tsshd/tsshd/proxy_server.go:371-477 | over every run without a probe and without a wiped-out entry, at every moment, no two clients own the same address |
| `IndexOwners.LookupIsExactUnlessWiped` | tsshd/tsshd/proxy_server.go:328-369 | after every such run, between two datagrams and whatever timeouts are in progress, no address is owned twice and the lookup answers exactly what a scan of all clients would |
| `IndexOwners.FirstWipeIsLateDelete` | tsshd/tsshd/proxy_server.go:107-133 | the first live entry wiped out in a run without a probe, in either map, is deleted by a setter after whose swap the address was bound again |
| `WipedEntry.LiveEntryIsWipedOut` | tsshd/tsshd/proxy_server.go:107-119 | a run, for any two addresses, after which all setters are done and an address is the effective one of one client only, and yet its packets are dropped |
| `PacketCache.ReplayLosesOnlyTheMiddle` | tsshd/tsshd/proxy.go:165-201 | up to 200 packets are replayed whole; of more, exactly the first and the last 100, in order |
| `PacketCache.OverwriteRolls` | tsshd/tsshd/proxy.go:118-163 | overwriting the oldest slot of a ring and advancing drops the oldest element and appends the new one |
| `PacketCache.PaddingIsInvisible` | tsshd/tsshd/proxy.go:171-181 | empty slots of the sample ring do not show in what is replayed |
| `PacketCache.KeepOverwritten` | tsshd/tsshd/proxy.go:154-163 | once both buffers are full, overwriting keeps them equal to the first 100 and the last 100 of the log |
| `PacketCache.PacketCache.constructor` | tsshd/tsshd/proxy.go:104-116 | a new cache refines the empty log |
| `PacketCache.PacketCache.AddSample` | tsshd/tsshd/proxy.go:118-130 | the log of samples grows by one |
| `PacketCache.PacketCache.AddPacket` | tsshd/tsshd/proxy.go:132-163 | the log of packets grows by one, and the totals stay its sums |
| `PacketCache.PacketCache.SendSamples` | tsshd/tsshd/proxy.go:171-181 | writes the non-empty ones of the last ten samples in order, wherever the ring stands |
| `PacketCache.PacketCache.SendFirst` | tsshd/tsshd/proxy.go:183-189 | appends the first packets in order and keeps the counts exact |
| `PacketCache.PacketCache.SendRecent` | tsshd/tsshd/proxy.go:191-198 | appends the ring oldest first, wherever it stands, and keeps the counts exact |
| `PacketCache.PacketCache.SendCache` | tsshd/tsshd/proxy.go:165-201 | writes exactly the replay of the log, returns its size and count, and changes nothing |
| `PacketCache.PacketCache.ClearCache` | tsshd/tsshd/proxy.go:203-216 | empties the log, returns its totals, and is right although the sample index stays where it is |
| `TimeoutChecker.StepKeepsInv` | tsshd/tsshd/comm.go:405-443 | every atomic operation of the loop or of a waiter keeps the invariant |
| `TimeoutChecker.NoWaiterIsStranded` | tsshd/tsshd/comm.go:302-330 | in every run each channel ever made, and so each one that a waiter blocks on, is closed, current, or held by the loop that is about to close it; while the flag is set a channel is published |
| `TimeoutChecker.WaiterReturnsAfterReconnection` | tsshd/tsshd/comm.go:306-330 | once the loop is idle with the flag reset, three steps of its own bring any waiter home |
| `TimeoutChecker.NotificationsAlternate` | tsshd/tsshd/comm.go:405-443 | in every run the loop starts the goroutines that notify of a timeout and of a reconnection strictly in turn, a timeout first |
| `TimeoutChecker.TimeoutIsJustified` | tsshd/tsshd/comm.go:378-443 | between events the flag is set only after silence of the whole heartbeat timeout |
| `TimeoutChecker.SilenceRaisesTimeout` | tsshd/tsshd/comm.go:428-438 | from every reachable state with the loop idle, a timeout event after silence of more than the heartbeat timeout sets the flag, publishes a new channel and notifies, whatever happens between the loop's steps; otherwise it is ignored |
| `TimeoutChecker.SignOfLifeEndsTimeout` | tsshd/tsshd/comm.go:405-427 | a fresh sign of life during a timeout resets the flag, closes the channel and notifies, whatever happens in between; any other is only recorded, and an older one ignored |
| `TimeoutChecker.ReturnedFoundFlagClear` | tsshd/tsshd/comm.go:306-320 | in every run a waiter that has returned found the flag clear in a step of its own |
| `TimeoutChecker.WaiterBlocksDuringTimeout` | tsshd/tsshd/comm.go:306-330 | while the flag is set, four steps of its own bring any waiter that has not returned to the published channel |
| `TimeoutChecker.WaitsUntilClosed` | tsshd/tsshd/comm.go:322-324 | a waiter stays at its channel, in every continuation, until that is closed |
| `TimeoutChecker.NewWaiterReturnsIff` | tsshd/tsshd/comm.go:306-310 | whoever comes to wait returns at once if and only if the flag is clear |
| `ReplaceableStream.NoStreamLeaks` | tsshd/tsshd/attach.go:120-196 | in every run each stream ever handed in is current, closed or about to be closed, exactly one of these; after Close none is current |
| `ReplaceableStream.GoneStaysGone` | tsshd/tsshd/attach.go:120-144 | a stream that was taken out never becomes current again |
| `ReplaceableStream.CurrentThroughout` | tsshd/tsshd/attach.go:120-144 | a stream current at two moments was current at every moment between |
| `ReplaceableStream.ResultsComeFromUnreplacedStreams` | tsshd/tsshd/attach.go:146-175 | `do` returns a result only from a stream that was current from the step that took it to the step that returns |
| `ReplaceableStream.CloseIsPermanent` | tsshd/tsshd/attach.go:177-196 | once closed, closed after every continuation, and no call returns a result any more |
| `ReplaceableStream.CurrentIsLastHandedIn` | tsshd/tsshd/attach.go:120-144 | after every run the current stream is the one handed in by the last swap, none if that was a swap to nil, and none after Close |
| `ReplaceableStream.ReplacedStreamIsClosed` | tsshd/tsshd/attach.go:141-143 | a stream that is not the last one handed in can be closed by whoever took it out, and stays closed |
| `ReplaceableStream.CallTakesLastHandedIn` | tsshd/tsshd/attach.go:150-162 | a call that enters takes the last stream handed in, waits if there is none, and ends with EOF after Close |
| `ReplaceableStream.CallReturnsIffUndisturbed` | tsshd/tsshd/attach.go:146-175 | a call that enters with a stream returns its result if nothing is swapped or closed before it checks, whatever else happens, and starts over otherwise |
| `ReplaceableStream.NewCallReturns` | tsshd/tsshd/attach.go:146-175 | so a new call left alone returns a result of the last stream handed in |
| `ReplaceableChecker.EachCallbackRegisteredOnce` | tsshd/tsshd/attach.go:282-307 | after every interleaving each callback has exactly one wrapper of the current generation, on the current checker or about to be registered there |
| `ReplaceableChecker.AllGetRegistered` | tsshd/tsshd/attach.go:356-366 | from every reachable state the pending registrations can be carried out, and then each callback is registered exactly once on the current checker |
| `ReplaceableChecker.StaleWrappersNeverPass` | tsshd/tsshd/attach.go:356-379 | a wrapper on any other checker fails the generation check |
| `ReplaceableChecker.StaleStaysStale` | tsshd/tsshd/attach.go:368-379 | and fails it after every continuation |
| `SessionAttach.AttachedBelongsToActiveServer` | tsshd/tsshd/attach.go:394-463 | whenever the mutex is free, server, checker and both streams of a session attached by `attachSession` are the active server's, except for a stream that was closed |
| `SessionAttach.AttachSucceedsIff` | tsshd/tsshd/attach.go:409-447 | from every reachable state with the mutex free, an attach by the active server to a detached session with both streams made gives it server, checker and streams and changes no other session; any other attach changes nothing |
| `SessionAttach.ActivationDetachesAll` | tsshd/tsshd/attach.go:465-498 | from every reachable state with the mutex free, the activation of any server can be carried through, and every session is then detached |
| `SessionAttach.SessionsBelongToActiveServer` | tsshd/tsshd/attach.go:394-498 | whenever the mutex is free, server and checker of any session agree; they are the active server's, or none, if and only if the session was not registered by a server already replaced |
| `SessionAttach.StreamsFollowServerIff` | tsshd/tsshd/session.go:583-607 | whenever the mutex is free, a stream is that of the server its session refers to if and only if it was not made after the last detach had passed over it; one that was is the starting server's, in a session that refers to none |
| `SessionAttach.NeverOfAThirdServer` | tsshd/tsshd/attach.go:465-498 | at every moment, also between two stores, a session has a checker or stream only of the server it refers to, or a stream of the server that started it |
| `SessionAttach.StreamsAreMade` | tsshd/tsshd/session.go:583-607 | in every run the two streams that a session makes are those of the server that started it |
| `SessionAttach.ClosedForGood` | tsshd/tsshd/attach.go:177-196 | a stream that a session closes stays closed in every continuation, whoever attaches |
| `SessionAttach.StreamMadeAfterDetachStays` | tsshd/tsshd/session.go:857-893 | a concrete run that ends with a detached session holding the stream of the server it was taken from |
| `SessionAttach.BoundForLife` | tsshd/tsshd/server.go:97-102 | in every run a client state keeps the server instance it was first bound to |
| `SessionAttach.OneClientPerServer` | tsshd/tsshd/server.go:97-102 | no server instance is bound to two client states |
| `SessionAttach.NewClientGetsOwnServer` | tsshd/tsshd/server.go:91-102 | a client state that is not bound yet gets a server instance that no other has; one that is bound gets none |
| `SessionAttach.StarterWasActive` | tsshd/tsshd/server.go:287-290 | in every run a session is started only by a server that is or was the active one |
| `SessionAttach.LateStartStaysWithOldServer` | tsshd/tsshd/server.go:287-290 | a concrete run that ends with a session of the replaced server, which the active one cannot attach to |
| `Wire.BigEndianTruncates` | tsshd/tsshd/proxy.go:82-102 | writing a number into k bytes and reading it back gives it modulo 256^k |
| `Wire.ByteOfBigEndian` | tsshd/tsshd/proxy.go:82-102 | byte i of k is the number divided by 256^(k-1-i), modulo 256: network order |
| `Wire.FieldIsItsNumber` | tsshd/tsshd/proto.go:338-354 | reading k bytes as a number and writing it gives the bytes back |
| `Wire.TakeReadsBack` | tsshd/tsshd/proxy.go:82-102 | a length-prefixed payload that fits its field is read back exactly, whatever follows |
| `Wire.TakeReadsBackIff` | tsshd/tsshd/proxy.go:82-102 | and only one that fits |
| `Wire.TakeWaits` | tsshd/tsshd/proxy.go:89-102 | nothing is taken from a stream that breaks off inside a payload |
| `BusFraming.DecodeReadsBack` | tsshd/tsshd/proto.go:312-382 | one frame is read back exactly, and the reader stops at its end |
| `BusFraming.MessageReadsBackIff` | tsshd/tsshd/proto.go:324-354 | a message is read back exactly if and only if it is shorter than 2^32 bytes |
| `BusFraming.DecodeAllReadsBack` | tsshd/tsshd/proto.go:283-382 | any sequence of frames is read back exactly |
| `BusFraming.DecodeAllOfPrefix` | tsshd/tsshd/proto.go:312-354 | from a stream that breaks off anywhere, exactly a prefix of the frames is read |
| `BusFraming.FillBuffer` | tsshd/tsshd/proto.go:356-382 | the buffer of a command and message in one is the two encodings one after the other |
| `BusFraming.Stream.WriteAll` | tsshd/tsshd/proto.go:283-294 | for every split into partial writes, all is written unless a write fails, and a prefix if one does |
| `BusFraming.Stream.ReadFull` | tsshd/tsshd/proto.go:312-322 | for every split into partial reads, exactly the bytes asked for, or failure exactly when there are fewer |
| `BusFraming.Stream.SendCommandAndMessage` | tsshd/tsshd/proto.go:356-382 | refuses commands of length 0 or over 255 and writes nothing; otherwise the frame is appended unless a write fails |
| `BusFraming.Stream.SendSeparately` | tsshd/tsshd/proto.go:296-336 | command and message sent apart leave the same bytes as sent together, and a prefix of them on failure |
| `BusFraming.Stream.SendAll` | tsshd/tsshd/proto.go:356-382 | any number of frames: all appended unless a write fails, and some prefix of their bytes if one does |
| `BusFraming.Stream.RecvPrefixed` | tsshd/tsshd/proto.go:338-354 | reading a length and then that many bytes is the decoding function |
| `BusFraming.Stream.RecvFrame` | tsshd/tsshd/proto.go:312-354 | receiving a command and a message decodes one frame and consumes just that |
| `BusFraming.Stream.RecvAll` | tsshd/tsshd/proto.go:312-354 | receiving until the stream ends yields exactly the frames that the stream decodes to |
| `BusFraming.Exchange` | tsshd/tsshd/proto.go:283-382 | n sends with any partial writes followed by receives with any partial reads give back the n frames unless a write fails, and a prefix of them if one does |
| `TcpFrames.StepKeepsInv` | tsshd/tsshd/proxy_server.go:612-678 | every step of the connections' goroutines, of the common reader and of the network keeps the hand-off invariant |
| `TcpFrames.NeverTwoReaders` | tsshd/tsshd/proxy_server.go:612-661 | in every run, while the common reader is at a connection, its own goroutine waits for the acknowledgement of that frame |
| `TcpFrames.DeliveredIsPrefixOfSent` | tsshd/tsshd/proxy_server.go:551-678 | for any number of interleaved connections, what is delivered of each is a prefix of what was sent on it, attributed to the client that authenticated it |
| `TcpFrames.EncodedPrefixIsPrefix` | tsshd/tsshd/proxy.go:82-102 | the framing is a prefix code: bytes that begin another encoding come from packets that begin it |
| `TcpProgress.NextPacketDeliveredIff` | tsshd/tsshd/proxy_server.go:612-661 | from every reachable state in which the next packet of a live connection has arrived, the readers can deliver exactly that packet without more input if and only if no packet of another connection that has not arrived is ahead of it |
| `TcpProgress.AllArrivedCanBeDelivered` | tsshd/tsshd/proxy_server.go:612-661 | once all the packets sent on a live connection have arrived, there is a continuation without more input that delivers exactly these, in which connections that hold them up break |
| `TcpProgress.EndsIffFrameTooLong` | tsshd/tsshd/proxy_server.go:644-652 | in every run, reading a body ends a connection if and only if the length in front of the body exceeds the buffer |
| `TcpProgress.SignalSentIff` | tsshd/tsshd/proxy_server.go:626-631 | in every run at most ten signals wait, and a goroutine can send its own exactly while fewer do |
| `TcpProgress.StoppedDeliversNothing` | tsshd/tsshd/proxy_server.go:612-625 | a connection that breaks off or is replaced between two packets delivers nothing any more, in any continuation |
| `TcpProgress.HeldUpIsReachable` | tsshd/tsshd/proxy_server.go:640-660 | a run, for any packet, in which the packet has arrived and is held up by one of another client that has not |
| `UdpForward.ForwardSession.constructor` | tsshd/tsshd/datagram.go:535-547 | a new session is pending with nothing queued |
| `UdpForward.ForwardSession.WritePacket` | tsshd/tsshd/datagram.go:549-576 | queue and writes stay those of the event sequence so far, with the arrival added |
| `UdpForward.ForwardSession.AttachStream` | tsshd/tsshd/datagram.go:578-589 | the same with the attachment added: the loop writes the queue in order |
| `UdpForward.OnlyOverflowIsLost` | tsshd/tsshd/datagram.go:549-589 | over any sequence of arrivals and attachments, arrival j is missing if and only if it came before the stream after 1024 others; all the rest are written, or queued until there is a stream, unaltered and in order |
| `UdpForward.NoPanicAndAllClosed` | tsshd/tsshd/datagram.go:88-216 | in no run is a channel closed twice or sent on after close; when the worker exits, every channel in the map is closed |
| `UdpForward.TaggedPayloadReachesItsChannel` | tsshd/tsshd/datagram.go:114-200 | in every run a tagged datagram adds exactly its payload to the channel of its tag, if it has room, and touches nothing else |
| `UdpForward.ChannelGetsItsPayloads` | tsshd/tsshd/datagram.go:88-200 | over every run, what was sent on a channel is exactly the payloads of the datagrams tagged for it that arrived while it was registered and had room, unaltered and in order of arrival |
| `UdpForward.TagIsReadBack` | tsshd/tsshd/datagram.go:185-200 | every 64-bit tag survives its eight-byte encoding |
| `UdpChannels.AddedChannelIsReady` | tsshd/tsshd/datagram.go:88-100 | in every run, unless the forwarder is closed, adding a channel makes an empty one on which the datagrams of its tag are sent |
| `UdpChannels.ChannelIsBounded` | tsshd/tsshd/datagram.go:97-155 | in every run a channel holds at most 1024 packets not received yet, and receiving one makes room |
| `UdpChannels.RemovedChannelIsClosed` | tsshd/tsshd/datagram.go:102-168 | in every run, with fewer than ten requests waiting, a channel that is asked to be removed is removed and closed once the worker has taken the requests |
| `UdpChannels.NothingAfterConnectionLost` | tsshd/tsshd/datagram.go:119-147 | once the connection is lost nothing is sent on any channel, in any continuation |
| `UdpChannels.ClosedRefuses` | tsshd/tsshd/datagram.go:88-108 | after Close no channel is added and no request accepted |
| `UdpChannels.CloseFinishes` | tsshd/tsshd/datagram.go:128-216 | from every reachable state, after Close the worker can finish, and every channel in the map is then closed |
| `SshTime.ReadIsSound` | trzsz-ssh/tssh/comm.go:482-536 | what is read as a number of seconds is a list of groups in the format, written as the string and worth that number |
| `SshTime.ReadIsComplete` | trzsz-ssh/tssh/comm.go:487-532 | a string cut into groups is read as the sum of their values |
| `SshTime.RenderedIsCutInto` | trzsz-ssh/tssh/comm.go:489-522 | the text of any list of groups of which only the last may lack its unit is cut into exactly those groups |
| `SshTime.ReadIffDenotes` | trzsz-ssh/tssh/comm.go:482-536 | a non-empty string reads as v if and only if some list of groups writes it and is worth v |
| `SshTime.NumberWithUnitDenotes` | trzsz-ssh/tssh/comm.go:503-522 | digits with a unit denote so many times 1, 60, 3600, 86400 or 604800 seconds, in either case of the letter, digits alone seconds, and nothing else |
| `SshTime.OtherUnitDenotesNothing` | trzsz-ssh/tssh/comm.go:503-522 | digits with any other character denote nothing |
| `SshTime.OverflowIff` | trzsz-ssh/tssh/comm.go:524-527 | the division test is exactly overflow of the product |
| `SshTime.AddChecked` | trzsz-ssh/tssh/comm.go:524-532 | multiplies and adds, or fails exactly if the exact result exceeds 32 bits |
| `SshTime.ConvertSshTime` | trzsz-ssh/tssh/comm.go:482-536 | for all strings: returns v if and only if the string denotes v seconds in the format of sshd_config(5) and v fits in 32 bits |
| `PortRanges.ParsePortRanges` | trzsz-ssh/tssh/udp.go:826-866 | the scanning loops compute the function that the lemmas below characterise |
| `PortRanges.ParseTokens` | trzsz-ssh/tssh/udp.go:827-863 | the token loop with its skips and its look-back is that function on one segment |
| `PortRanges.ParseToken` | trzsz-ssh/tssh/udp.go:830-862 | one round on strings is the round on token meanings |
| `PortRanges.AddPortRange` | trzsz-ssh/tssh/udp.go:805-824 | a range is added if and only if both ports are in 1..65535 and in order |
| `PortRanges.ParsedRangesAreValid` | trzsz-ssh/tssh/udp.go:802-867 | for every text, every range read has 1 <= low <= high <= 65535 |
| `PortRanges.RangesHaveDisjointSpans` | trzsz-ssh/tssh/udp.go:826-864 | for all tokens, each range comes from tokens that denote it, in order, and no token is used by two ranges |
| `PortRanges.ParsedOfConcat` | trzsz-ssh/tssh/udp.go:826-866 | for all texts, what stands before a comma and what stands after it are read independently, so a malformed segment spoils no other |
| `PortRanges.MalformedTokenIsSkipped` | trzsz-ssh/tssh/udp.go:829-863 | a malformed token between other tokens is skipped: what stands around it is read as if by itself |
| `PortRanges.SplitOfJoin` | trzsz-ssh/tssh/udp.go:826-833 | splitting undoes joining |
| `PortRanges.JoinOfSplit` | trzsz-ssh/tssh/udp.go:826-833 | joining undoes splitting |
| `PortLists.FieldsOfSpread` | trzsz-ssh/tssh/udp.go:827 | words separated by any white space are found again |
| `PortLists.ItemsAreRead` | trzsz-ssh/tssh/udp.go:829-863 | any sequence of ports, joined and spaced ranges is read as exactly those ranges |
| `PortLists.WellFormedListIsRead` | trzsz-ssh/tssh/udp.go:802-867 | every well-formed list, in any notation and spacing, yields exactly the ranges it writes, in order |
| `PortLists.PrintRanges` | trzsz-ssh/tssh/udp.go:778-791 | the printing loop writes the ranges joined by commas |
| `PortLists.DecimalReadsBack` | trzsz-ssh/tssh/udp.go:785-789 | a number printed in decimal is read back |
| `PortLists.PrintedRangesReadBack` | trzsz-ssh/tssh/udp.go:778-791 | parsing any printed list of ranges gives the list back |
| `PortLists.ServerReadsWhatClientRead` | tsshd/tsshd/service.go:170-235 | whatever the user wrote, tsshd reads from its command line the ranges that tssh read |

## Left out

- AES-GCM, ECDH and HKDF: abstract functions; only "opens under its own key and no other of the list" is used.
- QUIC, KCP and smux: libraries; the bus is taken to be ordered and reliable over the packets that open.
- Sockets, DSCP, STUN, hole punching and the wall clock: steps of the environment or parameters.
- `sendBusMessage("rekey")` failing halfway: a request or reply is either on the bus or not.
- 64-bit wrap-around of serial numbers, cache totals and session ids: numbers are unbounded there; field widths are modelled in the framing.
- Crypto that is delegated to the proxy (`delegatedToProxy`), where Seal and Open pass packets through unchanged.
- TCP handshake and `setClientConn`: the serial check there is that of UDP case 3; `TcpFrames.dfy` starts after it.
- TCP outside attachable mode, where one goroutine reads whole packets: the framing of `Wire.dfy`.
- `IndexRaces`, `TimeoutChecker`, `ReplaceableStream`, `ReplaceableChecker`, `SessionAttach`, `TcpFrames`, `TcpProgress`, `UdpChannels` and the forwarder of `UdpForward` are values changed by steps, not objects, because goroutines interleave in them; aliasing is not captured there.
- The order in which notification callbacks run; each notification is a goroutine of its own.
- Exits of waiters through a closed checker or a cancelled context, and the `aliveTime` ring.
- Activation outside attachable mode, `closeActiveStreams`, `streamMap`, and the notification of the old client.
- Failing session starts, and the fields of a session other than server, checker and streams.
- The pending and acquire/release maps of UDP forwarding sessions, and `packetConn`.
- `AddressIndex.dfy` handles a datagram or a timeout without interruption; their interleaving is in `IndexRaces.dfy`, on values, and for attachable mode only.
- Warnings and debug output, and which of several errors is reported.
- JSON: payloads are opaque bytes. Strings that are not valid UTF-8.
- Login, configuration lookup, authentication methods, known hosts, agent and X11 forwarding, terminal user interface, file transfer: glue over libraries and processes.
- Forward specifications, token expansion, pane layout: they would only add easy members.
- AddressIndex.UdpFrontend.GetClient: assumes that no setter is at work; `IndexRaces.LookupIsSound` and `IndexRaces.MissesNothingIff` say what holds otherwise.
- AddressIndex.UdpFrontend.HandleDatagram: the same, for a whole datagram.
- AddressIndex.UdpFrontend.SetClientAddr: promises an exact map only for an address not in it yet, which every caller establishes, because with the old address equal to the new one the code deletes the entry.
- AddressIndex.UdpFrontend.SetAuthedAddr: the same.
- Reauth.AcceptedMeansAgreed: for one client id, because acknowledgements do not name the client.
- SessionAttach.AttachSucceedsIff: a session marked closed and a failing acknowledgement also refuse the attach; the model has neither.
- TcpFrames.DeliveredIsPrefixOfSent: for packets below 65536 bytes; `Wire.TakeReadsBackIff` says what happens to others.
