# goreverselb, modelled and proved

goreverselb lets a service behind a firewall open a tunnel to a public server. The server
listens on a frontend port for it and hands user connections to the service's sessions. This
project models the parts of it that are hard to get right and proves what they guarantee.
`dafny verify dfyconfig.toml` checks everything.

## What is modelled

**The server registry** (`Pool`, `Registry*`, `Routing`, `TunnelService`, `Runs`). The state is the
port pool, the map from user and service to frontend, every frontend ever made with its
listener, acceptor and backend map, and every session that has not deregistered. The steps
are the two critical sections of `handleStream`, the outcome of the response on the control
stream, and the acceptor's exit, in any interleaving. `Registry` gives the steps as functions.
`TunnelService` has the objects, updated in place as the code does, each method proved to
perform exactly the step function. `RegistryInvariant` and `RegistryRuns` prove the safety and
draining theorems over all runs, and `RegistryHazards` gives runs that go wrong.

**The first packet** (`Cryptobyte`, `TlsHello`, `FirstPacket`). The ClientHello walker with its two
nested loops, the PROXY and CONNECT decoders and the PROXY printer, against a grammar of
section 4.1.2 of RFC 8446 and section 3 of RFC 6066.

**The relay** (`Framing`, `Relay`, `RelayRuns`, `RelayProgress`). The connect frame, the saved first
leg and the two copying loops from user to backend as a step machine in which every read and
write may be cut anywhere and either side may fail at any time.

**Names** (`Naming`). `service:instance` contexts and the keys of a service's tunnels.

**The client reconciler** (`ServiceGroup*`, `TunnelGroup`). `ServiceGroup` gives `reconcileTunnels`
and `ReconcileServiceGroup` as functions on values, with the list of all clients ever made.
`TunnelGroup` has the objects and loops, picking map elements in any order, proved to compute
these functions. The other modules prove exactness, confluence, idempotence, ownership and
the history of stored specs.

**End to end** (`EndToEnd`). From the first packet through the registry to the label a
backend receives.

Strings are sequences of bytes (`GoBytes`).

## Where the code departs from its evident intent

The model follows the code; each of these is a theorem.

- `handleStream` ignores `GetElement`'s error for an explicit port. A failed listen then
  returns another service's port (`FailedListenStealsPort`), and a port rebound before the
  old acceptor has returned it is later returned under its new holder
  (`EarlyRebindLosesPort`).
- A live service that asks for another port strands its old frontend, and the last session
  to leave that one unmaps the new frontend (`PortChangeOrphans`).
- `RegisterKeepsInvIff` and `RunSafeIff` give the exact condition (`Admissible`) under which none of
  this can happen.
- A session whose response could not be sent never deregisters: at every later state its
  frontend listens and its managed port is leased (`GoneForGood`, with the run `FailedResponseLeaks`). A
  run that has come to rest leaves the server as new exactly if no response failed in it
  (`PristineIffNoFailure`).
- An instance name with NUL bytes can make its PROXY preamble a ClientHello for another host
  (`NulNameMisroutes`); `PreambleRoundTripIff` gives the exact condition.
- The PROXY decoder's count leaves the newline in the stream (`PreambleRoundTrip`,
  `PreambleStripped`).
- `sendSerializedObject` compares lengths modulo 65536 and can report success for a frame cut
  short (`SuccessMeansWholeIff` gives the exact condition).
- The CONNECT target keeps its trailing space (`ConnectExact`), and one with a port in it never
  names an instance (`ConnectWithPortFindsNone`).
- The frame's length field holds 16 bits and the reader takes 1000 bytes (`FrameRoundTripIff`),
  so a connection with a longer connect object carries nothing (`SelfDelimitingIsSafe`).
- A label loses everything after a second colon, and a trailing colon (`LabelParseIff`).
- Tunnel keys of negative ports collide with those of other protocols (`NegativePortCollides`).
- `ReconcileServiceGroup` ignores new ports, addresses and the `Deleted` flag of a service it
  already knows (`SpecHistory`). The outcome is the same for every iteration order exactly when
  incoming entries that introduce the same new name agree on its ports and addresses
  (`ConfluentIff`, with the two diverging orders in `DivergingOrders`).
- Without an endpoint `reconcileTunnels` does nothing at all, not even for a deleted service; with
  a malformed one it closes and re-aims but makes nothing (`ReconcileAny`).

## Assumptions

- Every key of `Users` is the `UserID` of its entry, so the user of an authorized registration
  has an entry in the frontend map.
- Accept fails only on a closed listener. Listen fails on a port that an open listener has,
  and may fail at any time.
- The pool's range does not contain 0.
- The remote address of a session is unique among those of its instance; this is part of
  `Admissible`, and `SameAddressBreaksInv` shows it is needed.
- A session registers at most once before it deregisters, because a connection accepts one
  control stream.
- Deserializing is a set of accepted payloads. JSON's rejects every proper prefix of an
  object, which is the hypothesis of `SelfDelimitingIsSafe`.

## Model

| member | source | states |
|---|---|---|
| Pool.PoolInts.ForRange | pkg/pool.go:18-28 | a new pool has exactly the elements from the lower bound on free, `cap` of them, and none leased, also for a negative `cap` |
| Pool.PoolInts.GetElement | pkg/pool.go:30-55 | 0 hands out some free element, any other number itself if free, and nothing comes of an empty pool; exactly the element handed out moves from free to leased |
| Pool.PoolInts.ReturnElement | pkg/pool.go:57-69 | a leased element becomes free, anything else changes nothing |
| Pool.Partition | pkg/pool.go:18-69 | after any calls in any order, free and leased partition the initial range |
| Pool.HeldIsLeased | pkg/pool.go:30-69 | an element handed out and not returned since is leased |
| Pool.LeasedIsHeld | pkg/pool.go:30-69 | every leased element was handed out by some call and not returned since |
| Pool.NoDoubleLease | pkg/pool.go:30-69 | no element is handed out twice without being returned in between |
| RegistryInvariant.InitInv | pkg/muxtunnel.go:184-189 | a new server satisfies the registry invariant |
| RegistryInvariant.FailedListenRestores | pkg/muxtunnel.go:334-341 | an admissible registration whose listen fails leaves pool, map and sessions exactly as before |
| RegistryInvariant.StartShape | pkg/muxtunnel.go:313-351 | the whole new state of a registration that starts a frontend: one new frontend with one backend, one new session, one new map entry, the leased port |
| RegistryInvariant.MoveShape | pkg/muxtunnel.go:327-350 | the whole new state when a live service asks for another port: the old listener closed, a new frontend in its place or, after a failed listen, the closed one still mapped and the port freed |
| RegistryInvariant.RegisterOutcome | pkg/muxtunnel.go:303-350 | for every state and request: enrolled exactly when the pool, asked only if no port is named or current, has one, and the listen, needed only for a new port, succeeds; and on which port |
| RegistryInvariant.PortChangeBreaksInv | pkg/muxtunnel.go:327-343 | asking a live service for another port always breaks the invariant, whatever the listen says |
| RegistryInvariant.LeasedPortBreaksInv | pkg/muxtunnel.go:313-341 | so does asking for a leased port by number |
| RegistryInvariant.SameAddressBreaksInv | pkg/muxtunnel.go:350 | so does a second session of an instance from the same remote address |
| RegistryInvariant.RegisterKeepsInvIff | pkg/muxtunnel.go:302-351 | from any good state a registration leads to a good state exactly when it is admissible |
| RegistryInvariant.ExitKeepsInv | pkg/muxtunnel.go:465-511 | the acceptor's exit keeps the invariant; the leased ports stay one to one with the running acceptors' in-range ports |
| RegistryInvariant.DeregisterShape | pkg/muxtunnel.go:373-385 | deregistering empties exactly the session's slot, leaves no empty inner map, and closes and unmaps the frontend exactly when no backend is left |
| RegistryInvariant.DeregisterKeepsInv | pkg/muxtunnel.go:373-385 | deregistering keeps the invariant |
| RegistryInvariant.NextKeepsInvIff | pkg/muxtunnel.go:302-385 | every step keeps the invariant, a registration exactly when admissible |
| RegistryRuns.RunSafeIff | pkg/muxtunnel.go:302-385 | over every interleaving: all states of a run are good exactly when all its registrations are admissible |
| RegistryRuns.GuardedRunSafe | pkg/muxtunnel.go:302-385 | every state of a guarded run satisfies the invariant |
| RegistryRuns.NextWellFormed | pkg/muxtunnel.go:302-385 | no step, guarded or not, leaves a dangling reference |
| RegistryRuns.RunKeepsFrame | pkg/muxtunnel.go:302-385 | in every run, guarded or not, the users with an entry and the managed ports stay the same |
| RegistryRuns.LeaseSafety | pkg/muxtunnel.go:313-341 | in guarded runs the pool never hands out a port whose acceptor still runs, and a registration that is refused changes nothing |
| RegistryRuns.DrainStepCounts | pkg/muxtunnel.go:353-385 | each drain step takes exactly one off what is outstanding |
| RegistryRuns.DrainCounts | pkg/muxtunnel.go:353-385 | over whole drains, in every interleaving |
| RegistryRuns.DrainProgress | pkg/muxtunnel.go:360-385 | some drain step is enabled while anything is outstanding |
| RegistryRuns.QuiescentPristineIff | pkg/muxtunnel.go:353-385 | in a good state in which nothing can move, the server is as new exactly if no session of a failed response is left, and any session left has its listener open |
| RegistryRuns.DrainTheorem | pkg/muxtunnel.go:360-385 | a guarded run without failed responses that ends in a drain is as new exactly when it has drained as many steps as were outstanding, and cannot drain more |
| RegistryRuns.GoneStays | pkg/muxtunnel.go:354-358 | no step, guarded or not, ends a session whose goroutine left after a failed response |
| RegistryRuns.GoneForGood | pkg/muxtunnel.go:354-358 | in a guarded run such a session is there unchanged at every later state, with its frontend listening and accepting and its managed port leased |
| RegistryRuns.PristineIffNoFailure | pkg/muxtunnel.go:353-385 | a guarded run that has come to rest leaves the server as new exactly if no response failed in it |
| RegistryHazards.FailedResponseLeaks | pkg/muxtunnel.go:353-358 | a guarded run of a registration and a failed response: nothing can move any more and the port stays leased |
| RegistryHazards.FailedListenStealsPort | pkg/muxtunnel.go:313-336 | a run, for all names and ports, after which the pool offers a port that a listening frontend holds |
| RegistryHazards.PortChangeOrphans | pkg/muxtunnel.go:327-384 | a run after which a listening frontend with a live session is out of the map |
| RegistryHazards.EarlyRebindLosesPort | pkg/muxtunnel.go:313-343 | a run in which an old acceptor returns the port of a new frontend |
| Routing.RoutingExact | pkg/muxtunnel.go:640-668 | the candidates for a connection are exactly the sessions registered for that user, service and instance and not deregistered, each under its own address |
| Routing.RegisterRoutes | pkg/muxtunnel.go:302-351 | an admissible registration is enrolled exactly when its service is live, or the listen succeeds and a port was named or is free; it then adds exactly its own session to the candidates of its instance, on the current, the named or the picked port, and otherwise changes nothing |
| Routing.DeregisterRoutes | pkg/muxtunnel.go:373-385 | deregistering removes exactly its own session from the candidates, and the service's port exactly with its last session |
| Routing.LastSession | pkg/muxtunnel.go:374-379 | a frontend has no backend exactly when no session is in it |
| Routing.PickBackend | pkg/muxtunnel.go:670-682 | the loop picks the element at the index in iteration order |
| Routing.PickIsBijection | pkg/muxtunnel.go:663-676 | for every iteration order, index to backend is a bijection from [0, count) to the instance's sessions |
| TunnelService.FrontendRuntime.Add | pkg/muxtunnel.go:346-350 | the backend map gains exactly that slot |
| TunnelService.FrontendRuntime.Remove | pkg/muxtunnel.go:374-377 | the backend map loses exactly that slot, and an emptied inner map with it |
| TunnelService.RegisterInParts | pkg/muxtunnel.go:302-351 | taking a port, installing a frontend and enrolling a session compose to the registration step |
| TunnelService.MuxTunnelService.constructor | pkg/muxtunnel.go:184-189 | a new service represents the initial state |
| TunnelService.MuxTunnelService.SettlePort | pkg/muxtunnel.go:303-325 | the port is the named one, else the current one, else one of the pool, and none only if the pool is empty; the pool's refusal of an explicit port does not matter |
| TunnelService.MuxTunnelService.Install | pkg/muxtunnel.go:327-344 | keeps or replaces the frontend, closing the old listener and returning the port of a failed listen |
| TunnelService.MuxTunnelService.Register | pkg/muxtunnel.go:302-351 | the objects after the critical section represent exactly the registration step; a named port is refused only by a failed listen, an automatic one also by an empty pool |
| TunnelService.MuxTunnelService.Respond | pkg/muxtunnel.go:353-358 | whether or not the response was sent, the session keeps its slot: the invariant holds and every connection has the same candidates as before |
| TunnelService.MuxTunnelService.Deregister | pkg/muxtunnel.go:373-385 | the objects afterwards represent exactly the deregistration step |
| TunnelService.MuxTunnelService.AcceptorExit | pkg/muxtunnel.go:465-511 | the pool and the frontends afterwards represent exactly the acceptor's exit |
| TunnelService.MuxTunnelService.ChooseBackend | pkg/muxtunnel.go:640-683 | picks the candidate at the index, and none for an unknown user, service or instance |
| Cryptobyte.ReadVec8Exact | pkg/muxtunnel.go:761 | an 8-bit length-prefixed read yields data and rest exactly on the writer's output |
| Cryptobyte.ReadVec16Exact | pkg/muxtunnel.go:766 | the same for 16-bit lengths |
| Cryptobyte.U16Order | pkg/muxtunnel.go:766-791 | 16-bit lengths and types are in network byte order: they compare as their bytes do |
| TlsHello.ReadExtensionBlock | pkg/muxtunnel.go:757-783 | the reads before the loops yield the extension block or nothing |
| TlsHello.TryTLSDecode | pkg/muxtunnel.go:756-826 | the two nested loops terminate and compute the recursive walker |
| TlsHello.NamesAccept | pkg/muxtunnel.go:801-821 | on a well-formed name list the inner loop folds exactly its host names |
| TlsHello.ExtsAccept | pkg/muxtunnel.go:787-823 | on a well-formed extension block the outer loop folds exactly the host names of all server_name extensions |
| TlsHello.NamesParse | pkg/muxtunnel.go:801-821 | any list the inner loop accepts is a well-formed name list |
| TlsHello.ExtsParse | pkg/muxtunnel.go:787-823 | any block the outer loop accepts is a well-formed extension block |
| TlsHello.HelloParse | pkg/muxtunnel.go:757-783 | any packet accepted is a well-formed ClientHello |
| TlsHello.DecodeExact | pkg/muxtunnel.go:756-826 | a non-empty name is returned exactly when the packet is a ClientHello whose only host name, over all server_name extensions, is that name without trailing dot |
| TlsHello.DecodeFinalByte | pkg/muxtunnel.go:816-820 | no returned name ends with a dot |
| TlsHello.HelloDecodesTo | pkg/muxtunnel.go:756-826 | every ClientHello whose only host name does not end with a dot yields that name |
| TlsHello.PrefixDecode | pkg/muxtunnel.go:756-826 | any prefix of a packet yields the packet's name or none |
| TlsHello.DecodeSize | pkg/muxtunnel.go:760-825 | a recognised name leaves at least 58 bytes around it |
| TlsHello.NulFreeNeverDecodes | pkg/muxtunnel.go:756-826 | a packet without NUL bytes is never taken for a ClientHello |
| FirstPacket.WordsAreAscii | pkg/types.go:18-19 | the two words the decoders look for |
| FirstPacket.GetSNITarget | pkg/muxtunnel.go:721-752 | which decoder wins, what is forwarded, and exactly when the CONNECT reply is attempted |
| FirstPacket.ProxyExact | pkg/muxtunnel.go:829-847 | a name is decoded exactly from packets of at most 256 bytes that begin with the word and the length-prefixed name, and exactly that is consumed |
| FirstPacket.ConnectExact | pkg/muxtunnel.go:850-868 | a target is decoded exactly from packets that begin with the word, the target and a space, and keeps that space |
| FirstPacket.SniffHelloExact | pkg/muxtunnel.go:735-752 | a target with the whole packet kept is returned exactly when the packet announces it as its host name |
| FirstPacket.SniffProxyExact | pkg/muxtunnel.go:739-741 | a target with part of the packet kept is returned exactly for a PROXY preamble that is not a ClientHello, and what is kept is all that follows the name |
| FirstPacket.SniffConnectExact | pkg/muxtunnel.go:742-745 | a target with nothing kept is returned exactly for an answered CONNECT request that is not a ClientHello |
| FirstPacket.NulFreeDispatch | pkg/muxtunnel.go:735-745 | on NUL-free packets TLS never wins and the other two decoders exclude each other |
| FirstPacket.WritePreamble | cmd/goreverselb/stdinProxy.go:67-74 | word, length byte modulo 256, name and newline stand where they should; and the preamble is recognised as the name, up to the newline, exactly for names of 1 to 247 bytes that do not make it a ClientHello |
| FirstPacket.PreambleRoundTripIff | pkg/muxtunnel.go:721-847 | printing and recognising agree exactly for names of 1 to 247 bytes whose preamble is not also a ClientHello |
| FirstPacket.PreambleRoundTrip | pkg/muxtunnel.go:735-746 | in particular for every NUL-free name of 1 to 247 bytes, and only the newline is forwarded |
| FirstPacket.NulNameMisroutes | pkg/muxtunnel.go:735-741 | for any host of up to 197 bytes there is a name whose preamble is recognised as that host instead |
| Framing.Conn.Read | pkg/types.go:105 | one read fills the front of the buffer from one portion of the stream and leaves the rest of the buffer alone |
| Framing.ReadFrame | pkg/types.go:103-120 | the frame reader's result and what it leaves unread |
| Framing.SendSerializedObject | pkg/types.go:122-143 | what is written for every number of bytes the connection takes; success exactly when a multiple of 65536 bytes is missing, so always for a frame written whole, and for payloads under 65536 bytes only then |
| Framing.SuccessMeansWholeIff | pkg/types.go:129-142 | success always means that the whole frame was written exactly for payloads under 65536 bytes |
| Framing.FrameSound | pkg/types.go:103-120 | however the reads are cut, a frame that is read is whole, at most 1000 bytes, and nothing after it is consumed |
| Framing.FrameExact | pkg/types.go:103-120 | a payload is read exactly if it has at most 1000 bytes and length and payload come in one portion, or as one portion and the front of the next |
| Framing.FrameInOnePortion | pkg/types.go:103-143 | every frame of at most 1000 bytes that comes in one portion is read, and the rest is left |
| Framing.FrameOutcome | pkg/types.go:103-143 | with full reads, the outcome for every payload length |
| Framing.FrameRoundTripIff | pkg/types.go:103-143 | with full reads, the payload comes back and everything after it stays unread exactly for payloads of at most 1000 bytes |
| Relay.RunInv | pkg/muxtunnel.go:685-717 | over every chunking and interleaving: the line holds the frame and then the user's bytes from some offset, and the client reads exactly that; the offset is settled by RelayRuns.RunRecognised |
| RelayRuns.LegStrips | pkg/muxtunnel.go:721-752 | how much of a first packet is stripped: nothing of a ClientHello, word and name of a PROXY preamble, all of an answered CONNECT request, nothing of anything else |
| RelayRuns.RunSent | pkg/muxtunnel.go:729-733 | in every run the user's stream is the data of its sending steps, in order, and ended exactly by its closing step |
| RelayRuns.RunRecognised | pkg/muxtunnel.go:627-698 | in every run the offset is exactly what the first read strips, for ever after, and 0 without a first read |
| RelayRuns.ClientReadsFrame | pkg/muxtunnelClient.go:248-260 | the client's two reading steps are readFrame and the deserialization, however the stream is cut |
| RelayRuns.FaithfulIffFrameFits | pkg/muxtunnel.go:685-717 | in all runs the backend has received a prefix of what the user's steps have sent, in order, minus exactly what the first read strips, if and only if no fragment of the connect object passes for a whole one |
| RelayRuns.SelfDelimitingIsSafe | pkg/muxtunnelClient.go:248-260 | with a deserializer that takes no proper prefix all runs are faithful, and a connect object over 1000 bytes lets nothing through |
| RelayRuns.LeakingRun | pkg/types.go:129-142 | the run in which a fragment passes and the rest of the connect object reaches the backend |
| RelayRuns.CleanEndDeliversAll | pkg/muxtunnelClient.go:318-332 | when both copying loops have ended by end of file, the user has finished and all it sent but what the first read strips has been delivered |
| RelayRuns.RefinesFifo | pkg/muxtunnel.go:870-884 | in every run, from the empty queue at its start, every step is one of a FIFO: sending queues, the first read takes what it strips off the front, the client's writes take the front, and all else is invisible |
| RelayRuns.PreambleStripped | pkg/muxtunnel.go:737-746 | after a first read that begins with a PROXY preamble the stream is what follows the name, at any later time |
| RelayProgress.AdvancesDeliver | pkg/muxtunnel.go:700-717 | once the user has finished, steps that do not fail are bounded in number, in any order, and when none is left everything has been delivered |
| RelayProgress.AdvanceExists | pkg/muxtunnel.go:870-884 | until both loops have ended some step that does not fail is possible |
| RelayProgress.EveryMovePossible | pkg/muxtunnelClient.go:318-332 | every size of read and write and every failure is among the runs |
| Naming.SplitJoin | pkg/muxtunnel.go:393-401 | splitting yields the separator-free pieces whose join is the string |
| Naming.ParseServiceContext | pkg/muxtunnel.go:391-406 | service is what precedes the first colon, instance what stands between it and the next, user what precedes the token's first colon or the default; the pair's label is the given string exactly for a string with no colon or one that is not its last byte |
| Naming.ParseColonFree | pkg/muxtunnel.go:393-397 | no registered service or instance name holds a colon |
| Naming.ParseLabel | pkg/muxtunnel.go:391-406 | parsing the label of a colon-free pair gives the pair back |
| Naming.LabelParseIff | pkg/muxtunnel.go:893-895 | the label sent equals the registered string exactly when that has no colon, or one that is not its last byte |
| Naming.DefaultUserIsAscii | pkg/types.go:15 | the user of a token without a colon |
| Naming.DigitsValue | pkg/muxtunnelClientServiceGroup.go:76 | decimal printing loses nothing |
| Naming.DigitsUnique | pkg/muxtunnelClientServiceGroup.go:76 | the digits printed are the only ones with that value and no leading zero |
| Naming.KeyCollision | pkg/muxtunnelClientServiceGroup.go:76 | exactly which pairs of ports share a tunnel key |
| Naming.KeyInjective | pkg/muxtunnelClientServiceGroup.go:76 | keys identify non-negative ports of all protocols, dashes included |
| Naming.NegativePortCollides | pkg/muxtunnelClientServiceGroup.go:76 | the key of a negative port is also another port's |
| ServiceGroup.FirstMeaning | pkg/muxtunnelClientServiceGroup.go:75-81 | the entry a tunnel is made for is the first with its key |
| ServiceGroup.LastMeaning | pkg/muxtunnelClientServiceGroup.go:109-113 | the entry a tunnel is aimed at is the last with its key |
| ServiceGroupProofs.AddPortsApplies | pkg/muxtunnelClientServiceGroup.go:75-114 | the loop over ports makes what is missing, aims what is there and touches nothing else |
| ServiceGroupProofs.AddPortsUnusable | pkg/muxtunnelClientServiceGroup.go:94-97 | without a usable endpoint it makes nothing |
| ServiceGroupProofs.CloseKeysCloses | pkg/muxtunnelClientServiceGroup.go:118-122 | closing keys closes exactly the open clients of that service in those slots |
| ServiceGroupProofs.ReconcileKnown | pkg/muxtunnelClientServiceGroup.go:58-123 | a service whose tunnels match its spec is left exactly as it is, duplicate port keys included |
| ServiceGroupProofs.ReconcileNew | pkg/muxtunnelClientServiceGroup.go:58-123 | a new service gets exactly the tunnels its spec calls for |
| ServiceGroupProofs.ReconcileGone | pkg/muxtunnelClientServiceGroup.go:158-164 | a service that is gone loses exactly its own tunnels |
| ServiceGroupAny.ReconcileAny | pkg/muxtunnelClientServiceGroup.go:58-123 | whatever the endpoint, the earlier tunnels and the Deleted flag: which keys remain, whose clients they are and where they are aimed, exactly which clients are closed, and that no other is touched |
| ServiceGroupAny.ReconcileUnset | pkg/muxtunnelClientServiceGroup.go:59-72 | without an endpoint nothing happens, whatever is stored |
| ServiceGroupAny.ReconcileMalformed | pkg/muxtunnelClientServiceGroup.go:94-97 | with a malformed endpoint the tunnels still asked for are re-aimed, the others closed and none made |
| ServiceGroupAny.ReconcileDeleted | pkg/muxtunnelClientServiceGroup.go:58-123 | with an endpoint, a deleted service's clients are all closed and forgotten, and no other is touched |
| ServiceGroupRuns.UpsertExact | pkg/muxtunnelClientServiceGroup.go:135-156 | an incoming service that is known changes nothing, a new one is stored and gets its tunnels |
| ServiceGroupRuns.RemoveExact | pkg/muxtunnelClientServiceGroup.go:158-164 | removing a service takes exactly its spec away and reopens no client |
| ServiceGroupRuns.ReconcileExact | pkg/muxtunnelClientServiceGroup.go:126-167 | after any call the known names are exactly the requested ones with their stored or first spec, and all open tunnels are those the specs call for |
| ServiceGroupRuns.OpenIsWanted | pkg/muxtunnelClientServiceGroup.go:74-114 | the open tunnels of a service as a function of its stored spec alone |
| ServiceGroupRuns.OpenKeys | pkg/muxtunnelClientServiceGroup.go:74-114 | the open tunnel keys are exactly protocol-port of the stored ports |
| ServiceGroupRuns.OpenClient | pkg/muxtunnelClientServiceGroup.go:75-114 | each tunnel is made for the first stored port with its key and aimed at the target port of the last and the stored addresses |
| ServiceGroupRuns.TunnelPerPort | pkg/muxtunnelClientServiceGroup.go:75-114 | without negative ports every stored protocol and port has its own tunnel |
| ServiceGroupOrder.ConfluentIff | pkg/muxtunnelClientServiceGroup.go:126-167 | all iteration orders of both loops give the same stored specs and the same open tunnels if and only if incoming entries that introduce the same new name agree on its ports and addresses |
| ServiceGroupOrder.DivergingOrders | pkg/muxtunnelClientServiceGroup.go:135-156 | two orders with different outcomes whenever two such entries disagree |
| ServiceGroupOrder.DistinctNamesConfluent | pkg/muxtunnelClientServiceGroup.go:135-156 | with distinct incoming names the order never matters |
| ServiceGroupRuns.ReconcileIdempotent | pkg/muxtunnelClientServiceGroup.go:126-167 | a call with the known names makes nothing, closes nothing and ends in the same state |
| ServiceGroupRuns.RepeatedCall | pkg/muxtunnelClientServiceGroup.go:126-167 | repeating a call, in any orders, changes nothing |
| ServiceGroupRuns.OwnershipHistory | pkg/muxtunnelClientServiceGroup.go:126-167 | over every sequence of calls each client is open in exactly one slot or closed and stored nowhere, and a closed one stays closed |
| ServiceGroupRuns.Began | pkg/muxtunnelClientServiceGroup.go:130-164 | the call that began a name's current unbroken presence |
| ServiceGroupRuns.SpecHistory | pkg/muxtunnelClientServiceGroup.go:130-164 | over every sequence of calls the stored spec is the first one given by the call that began the current presence |
| TunnelGroup.MuxTunnelClient.Close | pkg/muxtunnelClient.go:86-94 | closes a client that is open; a second close would panic |
| TunnelGroup.MuxTunnelClientServiceGroup.MakeClient | pkg/muxtunnelClientServiceGroup.go:81-99 | makes and stores one client, or nothing without a usable endpoint |
| TunnelGroup.MuxTunnelClientServiceGroup.UpdateClient | pkg/muxtunnelClientServiceGroup.go:103-113 | afterwards addresses and port are the given ones, whichever had to be updated |
| TunnelGroup.MuxTunnelClientServiceGroup.AddPort | pkg/muxtunnelClientServiceGroup.go:75-114 | one round of the loop over ports computes the step function |
| TunnelGroup.MuxTunnelClientServiceGroup.AddPorts | pkg/muxtunnelClientServiceGroup.go:75-114 | the loop computes the fold, and what is left of portsGone is the earlier keys minus those of the ports |
| TunnelGroup.MuxTunnelClientServiceGroup.CloseTunnels | pkg/muxtunnelClientServiceGroup.go:117-122 | in whatever order, the loop closes exactly the given tunnels, each once |
| TunnelGroup.ClosesIsCloseKeys | pkg/muxtunnelClientServiceGroup.go:117-122 | what closing some tunnels means determines the resulting state |
| TunnelGroup.MuxTunnelClientServiceGroup.ReconcileTunnels | pkg/muxtunnelClientServiceGroup.go:58-123 | the objects afterwards represent exactly the reconciled value |
| TunnelGroup.MuxTunnelClientServiceGroup.ReconcileServiceGroup | pkg/muxtunnelClientServiceGroup.go:126-167 | the objects afterwards represent the reconciled group for some iteration orders of its loops, each element once, and the invariant holds |
| EndToEnd.RunColonFree | pkg/muxtunnel.go:290-350 | in every run no registered name holds a colon |
| EndToEnd.TargetReachesInstance | pkg/muxtunnel.go:640-683 | in a guarded run a connection for any target has exactly the sessions registered for that instance to choose among, with a label that parses back to service and instance |
| EndToEnd.HelloReachesInstance | pkg/muxtunnel.go:735-752 | a ClientHello reaches its host name's instance, with the whole packet |
| EndToEnd.ProxyReachesInstance | pkg/muxtunnel.go:739-741 | a PROXY preamble, whatever follows it, reaches the named instance, with all that follows the name |
| EndToEnd.PreambleReachesInstance | pkg/muxtunnel.go:601-683 | so does the whole preamble of a NUL-free name, with its newline |
| EndToEnd.ConnectWithPortFindsNone | pkg/muxtunnel.go:640-660 | a CONNECT target with a port in it finds no backend |

## Left out

- TLS, SSH and yamux themselves, certificates and host keys: a session is an opaque identity
  and a stream a FIFO with end of file.
- Sockets, deadlines, sleeps, keepalive polling and random numbers: nondeterministic steps,
  an arbitrary outcome of Listen and an arbitrary index. That the read deadline stays set after a
  PROXY or CONNECT packet is not modelled.
- JSON and YAML, configuration files, the REST API, NATS, logging and command-line flags.
- `authorize`: a registration is taken to have passed it.
- The client's reconnect loop and its pick of a target address.
- The relay's direction from backend to user: a plain copy with no frame and no preamble.
- The relay's goroutines are a step machine over values, not methods: they interleave.
- The CONNECT request after its target, which the server drops with the rest of the first read.
- A nil service in the incoming map, and the difference between a nil and an empty address
  list.
