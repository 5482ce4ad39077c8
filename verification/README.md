# C.O.R.E. verified

C.O.R.E. is a host that devices connect to, with components and services it starts in dependency order, a registry of resources it reconciles with a backend, and a scheduler that assigns agents to devices. This project models the parts of it whose correctness spans several operations or several threads, and proves properties of every run of them.

How it is laid out: a module ending in `Spec` (and `DependencyGraph`, `Reconciliation`, `ConfigurationTree`, `Ordering`) describes a part as functions on its state and proves what every run keeps. A module of classes beside it (`Runtime`, `Services`, `DependencyManager`, `Devices`, `Transport`, `Resources`, `Scheduler`, `Configurations`, `Admission`, `Framing`, `Sessions`) follows the code: the same fields, updated in place, with each method tied to its function by `Now() == Spec(old(Now()), ...)`. `Utf8` is the text encoding of RFC 3629, `Labels` names invalid items, and `Names`, `Sorting`, `Dicts`, `JoinNames` and `SearchState` hold what they share.

- **The device protocol** (`ProtocolSpec`, `ProtocolSafety`, `ProtocolRouting`). One handler thread per socket; the registry and the socket map have different locks. Every locked block, and every unlocked read between two blocks, is one step; each handler has a program counter, connection ids are fresh, and authentication, tokens and whether a write succeeds are parameters of the steps. The theorems quantify over every interleaving of any number of handlers. `Transport` shows that the handlers' own code is made of these steps.
- **Admission and framing.** The 64-slot budget over every interleaving and stop; texts as length-prefixed UTF-8 over streams that arrive in arbitrary pieces.
- **Lifecycles.** Three depth-first searches with cycle detection, the start, rollback and stop of components with handlers failing anywhere, the recursive stop of services, and the disable cascade.
- **Resources.** Reconciliation against an authoritative listing, and the category index beside the registry.
- **Scheduler, ordering, configuration.** Accounting and choice; deterministic order and pages; nested dictionaries under dotted paths.

Parameters stand for what is outside: which initializers and shutdown handlers fail, what a socket delivers and when it times out, the clock, whether a timestamp can be read, newly drawn ids and tokens, and what the backend lists.

Where code and documentation disagree, the model follows the code:

- `reconcile` says invalid items never cause deletion (core/organization/ingestion.py:266-273). A known resource whose only listed item is invalid is removed; `Reconciliation.InvalidItemDeletes` gives one and `Reconciliation.SurvivesIff` says exactly which known resources survive.
- `order_records` says records without a time keep their authoritative relative order (core/data/normalize.py:93-98). They are sorted by id: `Ordering.UnstampedKeepOrder` says exactly when that keeps it, `Ordering.UnstampedChangePlaces` gives two that lose it, and `Ordering.TiesKeepOrder` says that those with the same id always keep it.
- A failing operation sets a service FAILED without stopping what needs it (core/services/manager.py:257); `ServiceSpec.RaisingHandlerKeepsClosed` says exactly when the running services stay closed, and `ServiceSpec.RaisingHandlerBreaksClosure` gives a state where they do not.
- `assign` is written to return an existing assignment, but asks for a suitable profile first (core/scheduler/scheduler.py:204): `SchedulerSpec.AssignAgain` says exactly when it is refused, and `SchedulerSpec.AssignedRefused` gives a run that ends so.
- `register_profile` resets a count (core/scheduler/scheduler.py:105) even where assignments to an earlier profile of that id live on: `SchedulerSpec.RegisterKeeps` says exactly when the accounts survive, and `SchedulerSpec.CountLost` gives a run in which they do not.
- In `_dependency_order` of the service manager the message for a missing dependency (core/services/manager.py:321) cannot appear, because looking its priority up for sorting raises first: `Services.ServiceManager.DependencyOrder` excludes it.

## Model

| member | source | states |
|---|---|---|
| ProtocolSafety.PresenceSound | core/communication/tcp.py:1443-1502 | in every interleaving of registrations, teardowns and traffic over any number of connections, a bound socket is the connection the registry has online for the device, and every online device has a live session authenticated as it |
| ProtocolSafety.ReplacementBranchDead | core/communication/tcp.py:1851-1858 | in every interleaving, a teardown that looks at the socket map never finds its device bound to another connection: the "newer connection" branch is never taken |
| ProtocolSafety.OwnerKeepsDevice | core/communication/devices.py:284-290 | whatever the other connections do, the connection that got a device keeps it until its own teardown marks it offline |
| ProtocolSafety.LaterRegistrationLoses | core/communication/devices.py:284-290 | of any registrations of a device the first to reach the registry wins: until its own teardown marks the device offline, every later one is refused, changes nothing and closes its connection |
| ProtocolSafety.RegisterEffects | core/communication/tcp.py:1460-1496 | a registration wins exactly when its payload is valid, names the authenticated identity and the device is offline; otherwise registry and sockets stay as they are and the connection closes; nobody loses a device by it |
| ProtocolSafety.OwnershipGained | core/communication/devices.py:284-324 | a device passes to a connection only by that connection's own registration |
| ProtocolSafety.LoserTeardownQuiet | core/communication/tcp.py:1840-1866 | however interleaved, the whole teardown of a connection that lost or never had a device leaves registry and socket map unchanged at each of its own steps, and it never gains one |
| ProtocolSafety.LosingStays | core/communication/tcp.py:1480-1486 | one step of any handler keeps a losing connection losing, and its own steps touch neither registry nor socket map |
| ProtocolSafety.DetachedOwnsNothing | core/communication/tcp.py:1859-1862 | once a handler is through with its teardown, neither the registry nor the socket map names its connection |
| ProtocolSafety.StepEffects | core/communication/tcp.py:1443-1866 | a step leaves other handlers, established identities and other connections' devices as they are |
| ProtocolSafety.EveryRunKeeps | core/communication/tcp.py:818-859 | the invariant behind the above holds after every run |
| ProtocolSafety.SessionComesUp | core/communication/tcp.py:1443-1502 | connecting, authenticating, registering and binding go through for a valid, offline device, and leave it online over that connection with its socket bound and nothing else changed |
| ProtocolSafety.SessionGoesDown | core/communication/tcp.py:1840-1866 | the whole teardown goes through and leaves the device offline and unbound, the session ended with its token cleared, and nothing else changed |
| ProtocolSpec.ApplyKeeps | core/communication/tcp.py:1443-1866 | each of the nineteen kinds of step keeps the invariant: online means bound to a live, authenticated handler; a bound socket belongs to that handler; mid-registration and mid-teardown the device is still the handler's |
| ProtocolSpec.FindsOwned | core/communication/devices.py:466-472 | inside the invariant, looking a connection up gives exactly the one device it owns, or nothing |
| ProtocolSpec.NeverReplaced | core/communication/tcp.py:1851-1858 | between finding its device and looking at the socket map, a handler's device is bound to no other connection |
| ProtocolRouting.RoutingSound | core/communication/tcp.py:1743-1838 | in every interleaving, each frame written is the outcome of one passage of its sender's handler: the message received from a session whose identity it names and whose token it presents, its target looked up in the socket map, that target confirmed as the connection the destination was online with, and written by the sender it names while that owned its device, with nothing else done by the handler in between; the frame is the message less its session token; each is counted exactly once, those still in flight accounted for |
| ProtocolRouting.OneFramePerReception | core/communication/tcp.py:1743-1838 | one message received justifies one frame: passages that start at the same reception write the same frame |
| ProtocolRouting.FrameAuthenticated | core/communication/tcp.py:1160-1186 | each frame written was received from a session that had been authenticated as the frame's source, and presented the very token that authentication gave |
| ProtocolRouting.CredentialsGiven | core/communication/connection.py:66-89 | in every run, a session's identity and token are those of its authentication, until the token is cleared |
| ProtocolRouting.ReceiveDecides | core/communication/tcp.py:945-969 | a message that does not name the session's identity and present its token closes the connection; one that does is forwarded exactly when its destination is known |
| ProtocolRouting.Undisturbed | core/communication/tcp.py:1743-1838 | with nothing in between, a message received is written to its destination's socket and counted exactly when it presents the session's credentials, its sender is online over this connection and its destination is online over the connection its socket belongs to |
| ProtocolRouting.DeliveryCheck | core/communication/tcp.py:1789-1807 | the check that clears a delivery sees the destination online over that very, authenticated connection |
| ProtocolRouting.RoutesKept | core/communication/tcp.py:1743-1838 | every step keeps what routing handlers carry justified: the message speaks for the session, the sender is registered, the target was authenticated as the destination |
| ProtocolRouting.SenderOwns | core/communication/tcp.py:1190-1196 | a sender found registered owns the device of its own authenticated identity |
| ProtocolRouting.CountStep | core/communication/tcp.py:1829-1830 | a frame goes in flight as it is written and leaves as it is counted, so counted plus in flight equals written |
| Transport.TCPTransport.HandleDeviceRegister | core/communication/tcp.py:1443-1537 | run without interruption, the handler is exactly the protocol steps register, bind, touch, persist, or the register step alone when refused; the credentials supplied are stored |
| Transport.TCPTransport.RegisterDevice | core/communication/tcp.py:1446-1496 | the checks and the registry call are the protocol's registration step; goes through exactly for a valid payload of the authenticated, offline device |
| Transport.TCPTransport.BindSocket | core/communication/tcp.py:1497-1498 | the block under the transport lock is the protocol's binding step |
| Transport.TCPTransport.EnforceIdentity | core/communication/tcp.py:1160-1186 | accepted exactly when the session's identity is both the message's source and identity and the message presents the session's own token |
| Transport.TCPTransport.Receive | core/communication/tcp.py:945-969 | an unidentified message closes the connection; one for a registered device goes on to forwarding |
| Transport.TCPTransport.CheckDelivery | core/communication/tcp.py:1759-1807 | without interference the checks pass exactly when the sender is registered and the destination is online over the connection its socket belongs to |
| Transport.TCPTransport.HandleDeviceRouted | core/communication/tcp.py:1743-1838 | a run of this handler's protocol steps; one stripped frame to the destination's socket and one count exactly when deliverable and written, nothing otherwise |
| Transport.TCPTransport.Send | core/communication/tcp.py:1810-1828 | writes the message less its session token to the cleared connection, or nothing on failure |
| Transport.TCPTransport.DeliverToDevice | core/communication/tcp.py:578-622 | raises exactly when the destination is unreachable or the write fails; otherwise one message, one count |
| Transport.TCPTransport.CleanupDeviceBinding | core/communication/tcp.py:1840-1866 | a run of this handler's find, unbind and offline steps, ending detached |
| Transport.TCPTransport.RemoveSession | core/communication/tcp.py:689-697 | the protocol's last step: session gone, token cleared |
| Admission.EveryRunBounded | core/communication/tcp.py:636-704 | in every interleaving, across any number of stops, active plus reserved slots never exceed 64, and attempts equal total plus rejected plus reservations still held |
| Admission.ApplyKeeps | core/communication/tcp.py:662-697 | each locked block keeps that bound and that count |
| Admission.TableStep | core/communication/tcp.py:636-704 | the table holds those admitted and not removed: a held registration while fewer than 64 are active, a direct one while active plus reserved are; a slot is reserved under the same bound |
| Admission.ReservationsExact | core/communication/tcp.py:765-789 | between stops the reserved slots are exactly the reservations held |
| Admission.HeldRegistration | core/communication/tcp.py:645-660 | registering on a reservation is refused exactly when a stop voided the reservations and the table has filled up since |
| Admission.ReservationHonoured | core/communication/tcp.py:645-660 | since the transport came up, a connection holding a reservation is never turned away |
| Admission.SessionTable.TryReserveSlot | core/communication/tcp.py:662-674 | the locked block is the reserve step; granted exactly while active plus reserved is below 64 |
| Admission.SessionTable.ReleaseReservation | core/communication/tcp.py:676-682 | the locked block is the release step, counting a rejection only where asked to |
| Admission.SessionTable.RegisterSession | core/communication/tcp.py:636-660 | the locked block is the register step, with or without a reservation; admitted exactly when in the table |
| Admission.SessionTable.RemoveSession | core/communication/tcp.py:689-697 | the locked block is the remove step |
| Admission.SessionTable.CloseAllConnections | core/communication/tcp.py:699-704 | voids all reservations and empties the table, leaving the counters |
| Sessions.ConnectionSession.MarkAuthenticated | core/communication/connection.py:66-79 | raises on an empty identity and changes nothing; otherwise binds identity, time of authentication and last activity |
| Sessions.ConnectionSession.StartLease | core/communication/connection.py:91-94 | afterwards the lease is expired exactly from its start plus its non-negative length on |
| Sessions.ConnectionSession.LeaseRemaining | core/communication/connection.py:96-101 | the time left is there exactly when a lease runs, and adds up to its end |
| Sessions.ConnectionSession.IsLeaseExpired | core/communication/connection.py:103-106 | without a lease never expired; otherwise exactly from its end on |
| Sessions.ConnectionSession.RotateSessionToken | core/communication/connection.py:81-85 | the new token replaces the old |
| Sessions.ConnectionSession.ClearSessionToken | core/communication/connection.py:87-89 | no token is left |
| Framing.StreamRoundTrip | core/communication/tcp.py:1898-1949 | any sequence of texts sent, followed by anything, is read back as exactly those texts, up to what follows |
| Framing.FrameRoundTrip | core/communication/tcp.py:1898-1911 | the frame of a text is read back whole and not one byte further |
| Framing.ParseSound | core/communication/tcp.py:1898-1911 | what is read is a text a sender may send, and the bytes consumed are exactly its frame |
| Framing.FramingUnambiguous | core/communication/tcp.py:1944-1949 | no two different sequences of texts have the same bytes |
| Framing.BadLengthStops | core/communication/tcp.py:1905-1910 | a length outside 1 to 10 MiB ends reading with only the header consumed |
| Framing.UndecodableStops | core/communication/tcp.py:1908-1911 | a payload that is not UTF-8 ends reading, its bytes consumed |
| Utf8.TextRoundTrip | core/communication/tcp.py:1944-1947 | every text decodes from its own encoding |
| Utf8.BytesRoundTrip | core/communication/tcp.py:1908-1911 | bytes that decode are the encoding of what they decode to: shortest forms only, no surrogates, nothing past U+10FFFF |
| Framing.PackRoundTrip | core/communication/tcp.py:1902-1904 | the four-byte length is a two-way encoding |
| Framing.PackIsBigEndian | core/communication/tcp.py:1902-1904 | the length is written most significant byte first |
| Utf8.Examples | core/communication/tcp.py:1944-1947 | the examples of section 7 of RFC 3629, one character of each length |
| Framing.RecvExact | core/communication/tcp.py:1913-1942 | however the bytes arrive, exactly n are collected and nothing beyond is consumed; on a sound connection it fails only when the stream ends early |
| Framing.RecvFrame | core/communication/tcp.py:1898-1911 | however the bytes arrive, a text received is the next frame of the stream and nothing beyond it is consumed; a bad length and a payload that does not decode give none |
| Framing.RecvAll | core/communication/tcp.py:919-929 | the receive loop yields a prefix of the texts of the stream, and on a sound connection all of them up to the first bad frame |
| Framing.Deliver | core/communication/tcp.py:1898-1949 | what a sequence of sends puts on a sound stream is received text for text |
| Framing.Wire.SendFrame | core/communication/tcp.py:1944-1949 | appends the frame of the encoded text, or refuses one of the wrong size |
| DeviceSpec.RestartEquivalence | core/communication/devices.py:389-420 | restoring from the store brings back every device with every identity field, the persisted last_seen, all offline and bound to nothing |
| DeviceSpec.EveryRunPersistent | core/communication/devices.py:326-445 | after every run of register, mark offline, persist, touch and restart, the store holds every device's current identity |
| DeviceSpec.TokenSurvives | core/communication/devices.py:350-387 | the stored token is always the last one supplied, across registrations, teardowns and restarts |
| DeviceSpec.TokenStep | core/communication/devices.py:364-384 | one operation changes the stored token exactly when it supplies one for a known device |
| DeviceSpec.PermissionsSurvive | core/communication/devices.py:350-446 | the stored permissions are always the last ones supplied, across registrations, teardowns, touches and restarts |
| DeviceSpec.PermissionsStep | core/communication/devices.py:364-384 | one operation changes the stored permissions exactly when it supplies some for a known device |
| DeviceSpec.SnapshotRoundTrip | core/communication/devices.py:119-195 | reading back a persisted identity gives the record it was made from, offline and unbound |
| DeviceSpec.SnapshotRead | core/communication/devices.py:119-174 | which persisted identities are read back, and what their records say where identity or join name is missing |
| DeviceSpec.PayloadFaults | core/communication/devices.py:284-348 | everything a payload is turned down for |
| DeviceSpec.RegistrationRecords | core/communication/devices.py:284-324 | a registration that goes through found the device offline and leaves a record that says what the payload says, persisted with the token and permissions stored before; no other device is touched |
| DeviceSpec.RegisterKeeps | core/communication/devices.py:284-348 | registration keeps the store in step with the registry |
| DeviceSpec.MarkOfflineKeeps | core/communication/devices.py:474-492 | marking offline keeps the store in step with the registry |
| DeviceSpec.PersistKeeps | core/communication/devices.py:350-387 | persisting an identity keeps the store in step with the registry |
| DeviceSpec.SeenKeeps | core/communication/devices.py:501-507 | touching last_seen leaves the store holding the identity |
| DeviceSpec.FindFromFinds | core/communication/devices.py:466-472 | looking up a connection gives a device bound to it, or there is none |
| Devices.DeviceRegistry.RegisterPayload | core/communication/devices.py:326-348 | refused for a bad payload or an online device; otherwise the binding is replaced and persisted |
| Devices.DeviceRegistry.ActiveRecord | core/communication/devices.py:291-322 | an existing record is overwritten field by field, keeping its registration time and, unless given, its join name |
| Devices.DeviceRegistry.PersistRecord | core/communication/devices.py:422-446 | persists the record with the token and permissions already stored, or none |
| Devices.DeviceRegistry.PersistIdentity | core/communication/devices.py:350-387 | a token or permissions not supplied are the stored ones; nothing else changes |
| Devices.DeviceRegistry.MarkOffline | core/communication/devices.py:474-492 | only for the connection that is bound, when one is given: offline, unbound, seen now, and persisted with the stored token and permissions; otherwise nothing changes |
| Devices.DeviceRegistry.UpdateLastSeen | core/communication/devices.py:501-507 | touches one field of one record |
| Devices.DeviceRegistry.Restore | core/communication/devices.py:389-405 | raises exactly for an identity that does not validate; an online device is left as it is, any other takes on what was persisted, offline |
| Devices.DeviceRegistry.RestoreAll | core/communication/devices.py:407-420 | restores the listed identities one by one and returns how many of them validated |
| Devices.DeviceRegistry.FindByConnection | core/communication/devices.py:466-472 | the first record bound to the connection |
| JoinNames.DerivedIsGood | core/communication/devices.py:40-57 | a derived join name is non-blank, trimmed and at most 64 characters |
| JoinNames.SanitizeKeeps | core/communication/devices.py:40-48 | sanitizing keeps the letters and digits in order, says "device" where there are none, and leaves a good part as it is |
| JoinNames.SanitizeIsPlain | core/communication/devices.py:40-48 | a sanitized part has letters, digits and single marks only, none at either end |
| JoinNames.DerivedJoins | core/communication/devices.py:51-57 | the device's name, or its id where it has none, and its id, joined by a dash and cut at 64 characters |
| DependencyGraph.SearchDecides | core/runtime/runtime.py:148-198 | visiting every component gives an order exactly when no enabled component leads to a cycle, a missing or a disabled dependency; the order lists exactly the enabled ones, once each, dependencies first; otherwise the fault raised is real |
| DependencyGraph.ClosureListed | core/runtime/runtime.py:161-190 | a search from one name lists exactly what it needs, itself last |
| DependencyGraph.ClosureDecided | core/runtime/runtime.py:161-190 | it fails exactly when the name leads to a fault, and reports one |
| DependencyGraph.VisitSound | core/runtime/runtime.py:161-190 | a visit extends the order, keeps it dependencies-first and adds only what the name needs |
| DependencyGraph.VisitComplete | core/runtime/runtime.py:161-190 | a visit succeeds whenever some dependencies-first list holds the name ahead of everything being visited |
| DependencyGraph.RegistrationOrderKept | core/runtime/runtime.py:148-198 | a registration order that already has every dependency first is kept, less the disabled names |
| DependencyGraph.VisitBlames | core/runtime/runtime.py:161-183 | a failed visit names a fault the visited name really leads to |
| DependencyGraph.FaultRefutes | core/runtime/runtime.py:162-183 | a fault rules out every dependencies-first list holding a name that leads to it |
| DependencyManagerClass.RuntimeAgrees | core/dependencies/manager.py:51-88 | on the same graph, all enabled, the order of the dependency manager's own formulation followed by the name is the order the runtime's visit produces, and one raises exactly when the other does, over the same fault |
| DependencyManagerClass.MarkingAgrees | core/dependencies/manager.py:61-83 | the formulation in which the caller lists the visited name runs in step with the one that lists it itself: between visits the same order, after one everything but the visited name |
| DependencyManagerClass.OrderBeforeLists | core/dependencies/manager.py:51-88 | an order that is found is dependencies-first and lists exactly what the name reaches, itself left out |
| DependencyManagerClass.DependencyManager.Visit | core/dependencies/manager.py:61-83 | the nested visit, with its three mutable collections, computes the caller-appends formulation |
| DependencyManagerClass.DependencyManager.GetStartOrder | core/dependencies/manager.py:51-88 | everything the name needs and nothing else, dependencies first, the name left out; otherwise a fault the name really leads to |
| DependencyManagerClass.DependencyManager.Validate | core/dependencies/manager.py:102-104 | raises exactly when there is no start order, with a fault some registered name leads to |
| DependencyManagerClass.DependencyManager.Register | core/dependencies/manager.py:10-18 | adds to the dependencies already there |
| DependencyManagerClass.DependencyManager.Unregister | core/dependencies/manager.py:20-29 | drops the name and every mention of it |
| DependencyManagerClass.DependencyManager.SetDependencies | core/dependencies/manager.py:31-41 | replaces the dependencies of a known name |
| ComponentPolicy.Cascade | core/application/app.py:1018-1036 | the loop ends with the smallest superset of the requested components closed under depending on a disabled one |
| ComponentPolicy.CascadeIsReachability | core/application/app.py:1026-1036 | a component ends up disabled exactly when a chain of dependencies leads to a requested one |
| ComponentPolicy.CascadedStartSucceeds | core/application/app.py:1038-1042 | after the cascade, with registered and acyclic dependencies, ordering succeeds and lists exactly the complement |
| ComponentPolicy.Apply | core/application/app.py:1009-1044 | computes the cascade and writes every enable flag, or raises and writes none |
| RuntimeSpec.FreshRunDisciplined | core/runtime/runtime.py:200-305 | over every sequence of operations with handlers failing arbitrarily, a component comes up only while its dependencies are up and goes down only last-in-first-out with nothing up needing it; nothing is up unless RUNNING |
| RuntimeSpec.EveryRunDisciplined | core/runtime/runtime.py:200-305 | from any settled state, every sequence of operations keeps the discipline and leaves nothing up unless RUNNING |
| RuntimeSpec.ConfigurationKept | core/runtime/runtime.py:49-122 | after every run, a component's dependencies, switch and shutdown handler are those of its registration and of the settings that took effect since, and the components stand in the order of registration |
| RuntimeSpec.FreshConfiguration | core/runtime/runtime.py:49-122 | from the start, nothing is configured but what the operations say |
| RuntimeSpec.StartOutcome | core/runtime/runtime.py:200-259 | a start ends RUNNING exactly when an order exists and no initializer in it fails, having brought up exactly that order; otherwise FAILED with nothing up, naming the fault in the order if there is none |
| RuntimeSpec.StopOutcome | core/runtime/runtime.py:261-276 | a stop shuts down exactly what was up, in reverse, leaves nothing up, and records the handlers that raise |
| RuntimeSpec.FailedStartTrace | core/runtime/runtime.py:226-259 | what bringing up an order comes to whose k-th initializer fails first: k ups, the failure, the k downs in reverse, the error, the component states and the shutdown handlers that raised |
| RuntimeSpec.StartFailsAt | core/runtime/runtime.py:200-259 | the same of a whole start, disabled components marked |
| RuntimeSpec.RestartOutcome | core/runtime/runtime.py:278-284 | a restart shuts down exactly what was up, in reverse, and then starts: RUNNING exactly when an order exists and no initializer in it fails |
| RuntimeSpec.ShutdownEffect | core/runtime/runtime.py:286-305 | shutting down logs the exact reverse order, goes on past failing handlers and records them, and touches only the listed components |
| RuntimeSpec.DisciplinedStacks | core/runtime/runtime.py:226-305 | in a disciplined log everything up stands above what it needs |
| RuntimeSpec.ApplyKeeps | core/runtime/runtime.py:49-305 | every operation keeps the invariant |
| RuntimeClass.Runtime.GetStartOrder | core/runtime/runtime.py:148-198 | the loop over components computes the specified search |
| RuntimeClass.Runtime.Visit | core/runtime/runtime.py:161-190 | the nested visit, with its three mutable collections, computes the specified one |
| RuntimeClass.Runtime.Start | core/runtime/runtime.py:200-259 | computes the specified start |
| RuntimeClass.Runtime.InitializeAll | core/runtime/runtime.py:224-257 | computes the specified boot with its rollback |
| RuntimeClass.Runtime.ShutdownInitialized | core/runtime/runtime.py:286-305 | computes the specified shutdown |
| RuntimeClass.Runtime.Stop | core/runtime/runtime.py:261-276 | computes the specified stop |
| RuntimeClass.Runtime.Restart | core/runtime/runtime.py:278-284 | stop when not stopped, then start |
| RuntimeClass.Runtime.RegisterComponent | core/runtime/runtime.py:49-77 | refused unless stopped and new; otherwise registered last, enabled, with the dependencies and the handler given |
| RuntimeClass.Runtime.SetDependencies | core/runtime/runtime.py:79-94 | refused unless stopped and known |
| RuntimeClass.Runtime.SetEnabled | core/runtime/runtime.py:104-122 | refused unless stopped and known |
| ServiceSpec.EveryRunClosed | core/services/manager.py:81-141 | in every run without a failing operation, the running services are closed under dependencies and rankable |
| ServiceSpec.EveryRunAcyclic | core/services/manager.py:81-141 | in every run, failing operations included, the running services can be ranked by dependency |
| ServiceSpec.RunningAcyclic | core/services/manager.py:295-337 | no chain of dependencies among running services loops |
| ServiceSpec.StopTakesDependents | core/services/manager.py:113-141 | while the running set is closed, what a stop takes down is the service and every running service that transitively needs it |
| ServiceSpec.TopplesByDependent | core/services/manager.py:118-133 | what falls with a service is itself and what falls with one of its running dependents |
| ServiceSpec.TopplesAfterOthers | core/services/manager.py:118-133 | stopping dependents one after the other reaches what stopping each at first would have |
| ServiceSpec.RaisingHandlerKeepsClosed | core/services/manager.py:254-259 | a failing operation leaves the running set closed exactly when no other running service needs the failed one |
| ServiceSpec.RaisingHandlerBreaksClosure | core/services/manager.py:254-259 | a failing operation that leaves a running service without the one it needs |
| ServiceSpec.StartKeepsClosed | core/services/manager.py:81-111 | starting keeps the running set closed |
| ServiceSpec.StartLeast | core/services/manager.py:81-111 | a start adds no more to the running services than keeping them closed under dependencies takes, and changes no other status |
| ServiceSpec.StartKeepsRanked | core/services/manager.py:81-111 | starting keeps the running set rankable |
| ServiceSpec.HaltKeepsClosed | core/services/manager.py:113-141 | stopping keeps the running set closed and leaves no running service needing the stopped one |
| ServiceSpec.StopLeaves | core/services/manager.py:113-141 | a stop leaves STOPPED the service and every running one that transitively needs it, and changes nothing else |
| ServiceSpec.UnregisterLeaves | core/services/manager.py:41-56 | unregistering forgets the service and leaves STOPPED what ran on it |
| ServiceSpec.StatusSet | core/services/manager.py:28-79 | what registering, initializing and a failing operation make of a service's status |
| ServiceSpec.DependenciesKept | core/services/manager.py:28-56 | through every run, a service's dependencies are those it was registered with |
| Services.ServiceManager.Start | core/services/manager.py:81-111 | raises with no status changed exactly when the service leads to a fault, and then names a real one; otherwise ends with the old running set plus the service and all it transitively needs |
| Services.ServiceManager.Stop | core/services/manager.py:113-141 | the recursive stop ends, with exactly the service and everything falling with it stopped |
| Services.ServiceManager.Unregister | core/services/manager.py:41-56 | stops a running service with its dependents, then forgets it |
| Services.ServiceManager.Visit | core/services/manager.py:302-332 | the nested visit, which lists everything but the root, follows the specified search by priority; it raises a loop or an unknown service that the visited one really leads to, never a missing dependency |
| Services.ServiceManager.DependencyOrder | core/services/manager.py:295-337 | everything the service needs, dependencies first, the service left out; otherwise a loop or an unknown service it really leads to, never reported as a missing dependency |
| Services.ServiceManager.Register | core/services/manager.py:28-39 | raises exactly for a known id; otherwise the dependencies and the startup priority are those given |
| Services.ServiceManager.Initialize | core/services/manager.py:68-79 | ends STOPPED unless running |
| Services.ServiceManager.ExecuteRaising | core/services/manager.py:225-259 | a failing operation of a running service sets it FAILED and nothing else |
| Services.OrderIrrelevant | core/services/manager.py:312-327 | visiting dependencies by priority changes neither what is reached nor which faults it leads to |
| Services.PriorityOrder | core/services/manager.py:312-317 | dependencies are visited by startup priority, lesser numbers first, equal ones as listed |
| Services.AllStarted | core/services/manager.py:91-111 | starting along the order comes to exactly what starting the service promises |
| Services.NextFalls | core/services/manager.py:118-133 | stopping one more dependent from where the earlier ones left things comes to the union |
| Reconciliation.ReconcileReaches | core/organization/ingestion.py:266-348 | a reconcile raises exactly when an attached engine refuses a new or changed resource; otherwise the registry holds exactly the listed ids, each brought to its listed content |
| Reconciliation.GoalMatches | core/organization/ingestion.py:185-217 | that content has the listed name, type, capabilities and metadata, owner and source where listed, and bringing it there again changes nothing |
| Reconciliation.ReconcileFiles | core/organization/ingestion.py:311-336 | the index stays exact and every listed resource, unchanged ones included, is filed afresh |
| Reconciliation.SecondRun | core/organization/ingestion.py:266-348 | a second run on the same listing changes no resource, never raises, and reports as updated exactly those whose owner or source the listing leaves out but the registry still has |
| Reconciliation.ReportPartitions | core/organization/ingestion.py:303-348 | added, updated and unchanged partition the listed ids; removed is the rest of the known ones |
| Reconciliation.SurvivesIff | core/organization/ingestion.py:332-340 | a known resource survives exactly when a valid item lists it |
| Reconciliation.InvalidItemDeletes | core/organization/ingestion.py:266-273 | an invalid item does cause deletion: a known resource listed without its name is removed |
| Reconciliation.EveryRunIndexed | core/resources/registry.py:27-60 | every run of categorizing, non-blank operations keeps one linked entry per resource |
| Reconciliation.DiscoveryAgrees | core/resources/registry.py:133-174 | after every such run, discovery by category through the index is the scan by type, and each resource has exactly the entry resource:<id> |
| ResourceSpec.RegisterKeeps | core/resources/registry.py:27-43 | registering a new resource keeps the index exact if and only if it is categorized under non-blank names (or no engine is attached) |
| ResourceSpec.UnregisterKeeps | core/resources/registry.py:45-52 | unregistering keeps the index exact |
| ResourceSpec.UpdateKeeps | core/resources/registry.py:62-97 | updating keeps the index exact |
| ResourceSpec.UpdateSets | core/resources/registry.py:62-103 | an update sets the fields it gives and keeps all others; marking a resource seen makes it online |
| ResourceSpec.RegistryRefuses | core/resources/registry.py:27-97 | a known id is not registered over, an unknown one neither updated nor unregistered, and nothing changes |
| ResourceSpec.RecategorizeKeeps | core/organization/engine.py:213-244 | categorizing again keeps the index exact |
| ResourceSpec.CategorizeFiles | core/organization/engine.py:213-244 | categorizing files the resource under its type and name and changes no other entry |
| ResourceSpec.OneEntryEach | core/organization/engine.py:255-263 | exactly one entry is linked to each resource |
| ResourceSpec.MembersExact | core/organization/engine.py:169-175 | the index lists a resource under a category exactly when that is its type |
| ResourceSpec.DiscoverIsScan | core/resources/registry.py:133-174 | discovery by category gives, in order, what a scan of the resources by type gives |
| ResourceSpec.ScanMeans | core/resources/registry.py:104-126 | a scan has exactly the resources of the type, status and owner asked for |
| ResourceSpec.DiscoverMeans | core/resources/registry.py:133-174 | discovery has those of them whose type is the category, and nothing where there is no index |
| IngestionSpec.NormalizeRoundTrip | core/organization/ingestion.py:60-134 | a resource that is listed is read back with everything a listing carries, exactly when none of its texts is empty |
| IngestionSpec.NormalizeReads | core/organization/ingestion.py:60-134 | exactly which items are read, and as what resource |
| IngestionSpec.ListedIff | core/organization/ingestion.py:284-302 | the listed state has an id exactly when a valid item lists it |
| IngestionSpec.LastValidWins | core/organization/ingestion.py:284-302 | what the listed state has for an id is what the last valid item listing it says |
| IngestionSpec.OrderIrrelevant | core/organization/ingestion.py:284 | processing the items in id order comes to the same listed state |
| IngestionSpec.ItemsOrdered | core/organization/ingestion.py:284 | the items are gone through by id, those without one first |
| IngestionSpec.SettleEffect | core/organization/ingestion.py:309-331 | settling one resource puts its goal in place and nothing else, raising exactly when the engine refuses a changed one |
| IngestionSpec.IngestEffect | core/organization/ingestion.py:240-264 | a resource the backend no longer has is unregistered, one that cannot be read changes nothing, any other comes to its goal |
| IngestionSpec.SettleKeeps | core/organization/ingestion.py:185-217 | settling one resource with acceptable names keeps the index exact and changes exactly its own entry, to what the resource now is |
| Resources.ResourceIngestor.Reconcile | core/organization/ingestion.py:266-348 | computes the specified reconcile; the four sorted lists report exactly the ids added, updated, removed and unchanged, and the invalid items are reported once each under labels of their own |
| Resources.ResourceIngestor.ReadListing | core/organization/ingestion.py:281-302 | the loop collects exactly the listed state, and a label with its flaw for every invalid item |
| Labels.NextLabel | core/organization/ingestion.py:289-301 | an invalid item gets its description while that is free, and otherwise, after finitely many tries, the first free one of the labels made from its position |
| Labels.RecordedOnce | core/organization/ingestion.py:284-302 | no two invalid items share a label, and exactly the labels listed have a flaw on record |
| Labels.DecimalReads | core/organization/ingestion.py:292-300 | a position is spelled in decimal digits |
| Labels.LabelShapes | core/organization/ingestion.py:286-301 | what the plain labels and those made from a position look like |
| Labels.SuffixedInjective | core/organization/ingestion.py:297-300 | different suffixes give different labels |
| Resources.ResourceIngestor.SettleListed | core/organization/ingestion.py:303-331 | the loop settles the listed ids in order, sorting them into the three lists |
| Resources.ResourceIngestor.DropAbsent | core/organization/ingestion.py:332-340 | the loop drops exactly the ids not listed |
| Resources.ResourceIngestor.UpsertNormalized | core/organization/ingestion.py:185-217 | registers, re-registers on a type change, or updates and categorizes; created exactly when it was not known under its type |
| Resources.ResourceIngestor.IngestResource | core/organization/ingestion.py:240-264 | a missing resource is unregistered; an invalid one changes nothing |
| Resources.ResourceRegistry.Register | core/resources/registry.py:27-43 | computes the specified registration |
| Resources.ResourceRegistry.Unregister | core/resources/registry.py:45-52 | computes the specified unregistration, entries included |
| Resources.ResourceRegistry.Update | core/resources/registry.py:62-97 | None leaves a field alone |
| Resources.ResourceRegistry.List | core/resources/registry.py:104-126 | filtering by type and then status is one scan |
| Resources.ResourceRegistry.Discover | core/resources/registry.py:133-174 | the chain of filters is the specified discovery |
| Resources.ResourceRegistry.Clear | core/resources/registry.py:179-183 | empties registry and index |
| Resources.OrganizationEngine.CategorizeResource | core/organization/engine.py:213-244 | refreshes the entry in place or adds it; refuses blank names |
| Resources.OrganizationEngine.RemoveResource | core/organization/engine.py:255-263 | removes every entry linked to the resource and no other |
| Resources.OrganizationEngine.ByCategory | core/organization/engine.py:169-175 | lists the entries of a category, so that their links are its members |
| SchedulerSpec.EveryRunBalanced | core/scheduler/scheduler.py:100-293 | in every run in which agents that are made get unused ids and no profile is re-registered over live assignments, each count is the number of live assignments, within the maximum, and assignments and agents stay paired |
| SchedulerSpec.RegisterKeeps | core/scheduler/scheduler.py:100-106 | registering a profile keeps the accounts if and only if no assignment still names its id |
| SchedulerSpec.CountLost | core/scheduler/scheduler.py:49-115 | a run from the starting scheduler that loses count: assign, unregister and register the same profile again, and it counts nothing while its assignment lives on |
| SchedulerSpec.UnregisterKeeps | core/scheduler/scheduler.py:108-115 | unregistering keeps the accounts of the others |
| SchedulerSpec.ProfilesKept | core/scheduler/scheduler.py:100-115 | through every run, the profiles on offer are those registered, as they were registered |
| SchedulerSpec.AssignKeeps | core/scheduler/scheduler.py:188-250 | assigning keeps the accounts and the pairing |
| SchedulerSpec.AssignNames | core/scheduler/scheduler.py:188-250 | an assignment that goes through names the chosen profile, the one asked for where one was, in the assignment, the agent and the count, and changes nothing else |
| SchedulerSpec.AssignAgain | core/scheduler/scheduler.py:204-216 | an assigned device is left alone, and still refused when no profile has room |
| SchedulerSpec.AssignedRefused | core/scheduler/scheduler.py:204-216 | a run from the starting scheduler after which a device that has its assignment is refused, because every profile is full |
| SchedulerSpec.ReleaseKeeps | core/scheduler/scheduler.py:274-286 | releasing takes exactly one off its profile's count |
| SchedulerSpec.ReleaseUndoesAssign | core/scheduler/scheduler.py:188-286 | releasing what was just assigned restores the whole state |
| SchedulerSpec.ClearKeeps | core/scheduler/scheduler.py:288-293 | clearing keeps the accounts |
| SchedulerSpec.ChoiceIsGreatest | core/scheduler/scheduler.py:165-186 | the choice is the greatest by score and then id among profiles with room and a positive score; failing those the fallback; none exactly when neither is there |
| SchedulerSpec.WantedChoice | core/scheduler/scheduler.py:154-165 | a profile that is asked for is chosen exactly when it is registered, below its maximum and scores anything; then it and no other |
| SchedulerSpec.ChoiceIgnoresOrder | core/scheduler/scheduler.py:165-186 | the choice does not depend on registration order |
| SchedulerSpec.ScoreMeans | core/scheduler/models.py:47-65 | a profile scores nothing exactly when it shares no capability and matches neither type, platform nor host; sharing more and fitting no worse scores at least ten higher |
| SchedulerSpec.ScoreMarks | core/scheduler/models.py:47-65 | what each mark is worth: ten a shared capability, five the type, five the platform, two the host |
| SchedulerSpec.GreatestUnique | core/scheduler/models.py:47-65 | no two profiles are both greatest |
| SchedulerSpec.FreshBalanced | core/scheduler/scheduler.py:49-98 | the scheduler starts out balanced |
| Scheduler.AgentScheduler.FindSuitableAgent | core/scheduler/scheduler.py:132-186 | the candidate loop and the reversed sort compute the specified choice; a profile asked for is returned exactly when registered, below its maximum and scoring anything |
| Scheduler.AgentScheduler.Assign | core/scheduler/scheduler.py:188-250 | computes the specified assignment and returns the device's agent and assignment |
| Scheduler.AgentScheduler.Release | core/scheduler/scheduler.py:274-286 | computes the specified release |
| Scheduler.AgentScheduler.Clear | core/scheduler/scheduler.py:288-293 | the loop zeroes every count |
| Scheduler.AgentScheduler.RegisterProfile | core/scheduler/scheduler.py:100-106 | raises exactly for a known id |
| Scheduler.AgentScheduler.UnregisterProfile | core/scheduler/scheduler.py:108-115 | drops the profile and its count |
| Ordering.OrderIsOrdered | core/data/normalize.py:93-105 | a permutation: stamped records first, newest first with ties by id, then the unstamped by id |
| Ordering.NewestFirst | core/data/normalize.py:70-105 | of two readable times the newer stands first, on equal times the lesser id; stamps that cannot be read come before all that can, greater text first; records without a time come last, by id |
| Names.LeMeans | core/data/normalize.py:98-104 | texts are ordered by their first different character, a beginning before the whole |
| Ordering.TiesKeepOrder | core/data/normalize.py:98-105 | records the order does not tell apart, by id and by time where stamped, keep the order they came in |
| Ordering.UnstampedKeepOrder | core/data/normalize.py:93-105 | the records without a time keep their relative order exactly when they came in the order of their ids |
| Ordering.UnstampedChangePlaces | core/data/normalize.py:93-105 | two records without a time that change places |
| Ordering.OrderCanonical | core/data/normalize.py:93-105 | with one record per id the result depends only on which records there are |
| Ordering.NewestIsPreorder | core/data/normalize.py:70-90 | readable and unreadable stamps are ordered together without gaps |
| Ordering.PagesCover | core/data/normalize.py:108-118 | for any limit of at least one, the successive pages concatenate to the list |
| Ordering.PageSays | core/data/normalize.py:108-118 | a page tells the total and what was asked for, and has the records at the positions asked for |
| Ordering.PagesOfOrdered | core/data/normalize.py:93-118 | paging through ordered records reads every record exactly once |
| ConfigurationTree.GetAfterSet | core/configuration/models.py:41-91 | after a set, the path and everything below it read the new value and every path apart from it reads as before |
| ConfigurationTree.GetAboveSet | core/configuration/models.py:79-91 | paths above read as dictionaries, those there or new ones in place of something else |
| ConfigurationTree.RemoveThenSet | core/configuration/models.py:99-120 | remove raises exactly when the path reads nothing; otherwise it returns what was read, and setting that again restores the tree |
| ConfigurationTree.GetAfterRemove | core/configuration/models.py:99-120 | after a remove, nothing is read at or below the path and paths apart read as before |
| ConfigurationTree.MergeLookup | core/configuration/models.py:246-262 | what every path reads after a merge, from what it reads in the two trees |
| ConfigurationTree.MergeKeepsLeaves | core/configuration/models.py:246-262 | every source leaf is read at its path after the merge |
| ConfigurationTree.MergeTwice | core/configuration/models.py:246-262 | merging the same mapping twice is merging it once |
| ConfigurationTree.ParseJoin | core/configuration/models.py:223-243 | every list of non-blank keys without dots is the parse of its dotted spelling |
| ConfigurationTree.ParseSound | core/configuration/models.py:223-243 | what parses is such a list, and spells the path again |
| Configurations.Table.Set | core/configuration/models.py:79-91 | the nested dictionaries, changed in place, come to the specified tree, and the very object given is what the path holds |
| Configurations.Table.Remove | core/configuration/models.py:102-120 | the nested dictionaries, changed in place, come to the specified tree; the very object that was there is returned |
| Configurations.Table.Merge | core/configuration/models.py:246-262 | the recursive in-place merge comes to the specified tree |
| Configurations.Table.Get | core/configuration/models.py:48-57 | the walk reads what the tree has at the path, and returns the object held there |
| Configurations.Table.PutCopy | core/configuration/models.py:262 | a deep copy is stored, sharing no dictionary with the original |
| Configurations.Configuration.Set | core/configuration/models.py:72-91 | a bad path raises and changes nothing; otherwise the object given is stored at the path |
| Configurations.Configuration.Get | core/configuration/models.py:41-57 | a bad path raises; a missing one gives the default |
| Configurations.Configuration.Has | core/configuration/models.py:93-97 | whether the path reads something |
| Configurations.Configuration.Remove | core/configuration/models.py:99-120 | a bad or missing path raises and changes nothing |
| Configurations.Configuration.Merge | core/configuration/models.py:132-143 | anything but a dictionary is refused |
| Sorting.SortOrdered | core/data/normalize.py:101-104 | the sort is stable: elements it does not tell apart keep their order |
| Sorting.SortKeepsTies | core/data/normalize.py:101-104 | any group of elements the sort does not tell apart comes out as it went in |

## Left out

- Sockets, TLS, select and threads: reads and writes are nondeterministic steps and streams; overlapping writes to one socket are not modelled.
- Reads without a lock are steps of their own only where the routing and registration code makes them; a read inside another thread's locked block is not modelled.
- ProtocolSafety.PresenceSound: `stop`, `clear` and `mark_all_offline` racing with handlers are excluded; only the admission bound is proved across stops.
- ProtocolRouting.RoutingSound: counts the forwards of the connection handlers; the router's own `deliver_to_device` and the data distribution raise the same counter and are not steps of the protocol (`Transport.TCPTransport.DeliverToDevice` models the former run alone).
- Replacing a device record by `restore` while handlers hold the old object is not modelled, nor is `persist_identity` racing with itself.
- DeviceSpec.RestartEquivalence: the store is a reliable map; swallowed store failures and the resource mirror are left out.
- Device records, resources and index entries are values in maps: sharing one of these objects between callers is not captured. Services and configuration dictionaries are objects.
- Configurations.Table.Set: the dictionaries given must not be in the configuration already, so one dictionary held in two places is not captured.
- Configurations.Configuration.Set: likewise.
- Strings: `strip` knows the ASCII white space, separators included and join names the ASCII letters and digits; the accepted protocol versions are a set, without the `v` prefix and two-part forms.
- Resources.ResourceIngestor.Reconcile: the ingestor's engine is taken to be the registry's, and an error text is reduced to the field it complains of.
- Services.ServiceManager.Stop: takes as a ghost argument a ranking of the running services, which `ServiceSpec.EveryRunAcyclic` proves to exist in every run; likewise `Unregister`.
- Services are registered with their default status; health checks, service restart and handlers that succeed are left out.
- DependencyManagerClass.DependencyManager.GetStartOrder: an unregistered name is reported as missing, the code's own not-found error.
- SchedulerSpec.EveryRunBalanced: one call at a time, as the capacity check runs outside the lock that records the assignment.
- Initializers and shutdown handlers that call back into the runtime are left out.
- Cryptography, token randomness, credential checking, logging, events, metrics and wall-clock strings.
- JSON, YAML, HTTP and file adapters, the web portals, accounts, jobs, the command line, environment variables and geographic data: input, output and foreign libraries.
- Version handling, events, health, the security policy, runtime history and the capability router: easy or duplicate members.
