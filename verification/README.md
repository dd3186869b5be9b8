# A verified model of ShaPrint's core

ShaPrint shares local printers over IPPS. This project models the parts of it whose correctness
depends on many steps together, and proves what they promise. Each module follows one source file
or one protocol; the algorithms that change state or loop are methods, proved against functions, and
the properties are lemmas about those functions or about whole runs.

**Leases, drain and restart.** `JobTracker` has the tracker as a class, one method for each critical
section. `LeaseProtocol` lets any number of requests, drains and restarts interleave over those
sections, with a clock that only moves forward, and `ClientProxy` adds the local proxy, which moves
leases between connections and the map of multi-step jobs. A restart permit excludes print work in
every run that cancels no drain under it, and that condition is exact: `cancel_drain` reopens
admission unconditionally, and a drain that was woken but runs into its deadline does just that.
`TrackerAnswers` says over whole histories what callers are told: when a request or a print job is
admitted and what `drain` returns, each by an if and only if.

**Supervised services.** `StatusRegistry` is the registry with its published snapshot. `Coordinator`
runs any number of control calls beside the supervised tasks and shows that no task is ever out of
reach; `CoordinatorAnswers` says for every such run when `start`, `stop` and `shutdown` return Ok.
`CoordinatorAgreement` takes the calls one after another and shows when status and task keep
agreeing, and `CoordinatorPromises` exactly when `stop` and `shutdown` can return Ok untruthfully.
They can: `shutdown` returns early when a service fails between being read and being marked; the
senders it took are dropped, which cancels their tasks, but nothing waits for them any more, and a
later `stop` of another service answers Ok before that service is over. It needs two running
services, and two are enough. `CleanText` cleans the details the registry publishes.

**State that must agree with something simpler.** `Discovery` proves the cache of nearby servers
against the history of what was heard, `Sharing` the selection against what reopening the file gives,
`Advertising` the advertised list against the selection, and `PortReclaim` the polling loop that may
end only the processes it vetted first. `Sorting` is the stable sort two of them use.

**Codecs.** `CommandLine`, `Queues` and `Elevation` cover the elevated helper from quoting to
re-validation; `ControlArguments` the arguments of the control program
and `ControlGrammar` the grammar they are exactly; `Ipp` printer responses
(sections 3.1 and 3.5.1 of RFC 8010); `ChunkedBody` chunked bodies (section 7.1 of RFC 9112);
`Address` and `Routing` server addresses and loopback queue URIs (percent coding of section 2.1 of
RFC 3986). `Text`, `Bytes` and `Common` hold what they share.

**Nightly numbers.** `NightlyVersion` computes the next version from text, and `NightlyRuns` follows
publishing, pruning and tagging over whole histories.

Where the code does less than its documentation says, the model follows the code:

- `stop` can return Ok for a service that is not over yet (`CoordinatorPromises.LiesExactlyWhenStranded`);
- a drain that times out reopens admission under a held restart permit
  (`LeaseProtocol.TimedOutDrainReopensAdmission`);
- a chunked body cut short right after a leading zero of a size line is taken for complete
  (`ChunkedBody.TruncationShowsExactly`), because end of file may stand for the trailer;
- a nightly version is malformed when the base carries anything after X.Y.Z, such as build metadata
  (`NightlyRuns.NextExceedsAll`).

## Model

| member | source | states |
|---|---|---|
| JobTracker.PrintJobTracker.PromoteRequest | apps/desktop/src-tauri/src/application/job_tracker.rs:75-86 | a request lease becomes a print lease unless a drain or a permit is in force; the whole new state |
| JobTracker.PrintJobTracker.Release | apps/desktop/src-tauri/src/application/job_tracker.rs:88-104 | a release counts down the right counter, stamps the last print release, and says whether drainers wake |
| JobTracker.PrintJobTracker.TryAcquireRequest | apps/desktop/src-tauri/src/application/job_tracker.rs:218-230 | a request lease is granted exactly while no permit is held |
| JobTracker.PrintJobTracker.BeginDrain | apps/desktop/src-tauri/src/application/job_tracker.rs:166-171 | a drain refuses promotions from now on and changes nothing else |
| JobTracker.PrintJobTracker.CancelDrain | apps/desktop/src-tauri/src/application/job_tracker.rs:173-178 | admission reopens unconditionally, permit or not |
| JobTracker.PrintJobTracker.TryBeginRestart | apps/desktop/src-tauri/src/application/job_tracker.rs:236-251 | the permit is granted exactly when admission is open, the counts are zero and the cooldown has passed |
| JobTracker.PrintJobTracker.IsIdleFor | apps/desktop/src-tauri/src/application/job_tracker.rs:282-291 | the answer of the quiet-window query on the current state |
| JobTracker.RequestLease.MarkPrintJob | apps/desktop/src-tauri/src/application/job_tracker.rs:38-50 | a lease is promoted at most once; repeating it changes nothing |
| JobTracker.RequestLease.Drop | apps/desktop/src-tauri/src/application/job_tracker.rs:52-57 | dropping a lease releases it on the side it is counted on |
| JobTracker.RestartPermit.Drop | apps/desktop/src-tauri/src/application/job_tracker.rs:30-36 | dropping the permit reopens admission and changes no counter |
| LeaseProtocol.HistoryInv | apps/desktop/src-tauri/src/application/job_tracker.rs:75-104 | lease conservation: in every reachable state of every interleaving the counters equal the leases alive, no lease is in two places, and the stamps mean what they should |
| LeaseProtocol.LeaseBalance | apps/desktop/src-tauri/src/application/job_tracker.rs:88-98 | over any run the counters are grants minus drops, so no saturating decrement saturates |
| LeaseProtocol.ReleasedOnce | apps/desktop/src-tauri/src/application/job_tracker.rs:38-57 | a dropped lease is never granted, promoted or dropped again |
| LeaseProtocol.RestartExclusion | apps/desktop/src-tauri/src/application/job_tracker.rs:218-251 | in every run that cancels no drain while a permit is held, a held permit is the only one and no lease is alive |
| LeaseProtocol.SealStep | apps/desktop/src-tauri/src/application/job_tracker.rs:173-178 | one step keeps a held permit sealed if and only if it does not cancel a drain |
| LeaseProtocol.ExclusionBreaksExactly | apps/desktop/src-tauri/src/application/job_tracker.rs:173-178 | the side condition is exact: a step makes exclusion breakable if and only if it cancels a drain under a permit |
| LeaseProtocol.TimedOutDrainReopensAdmission | apps/desktop/src-tauri/src/application/job_tracker.rs:183-213 | a reachable run in which a drain that times out reopens admission beside a held restart permit |
| LeaseProtocol.EndedIsHistory | apps/desktop/src-tauri/src/application/job_tracker.rs:88-98 | the recorded print spans are exactly the print leases the run dropped |
| LeaseProtocol.PermitGrantedExactly | apps/desktop/src-tauri/src/application/job_tracker.rs:236-251 | over whole histories: a restart request is granted if and only if admission is open, nothing is alive and no print lease was dropped within the cooldown |
| LeaseProtocol.IdleExactly | apps/desktop/src-tauri/src/application/job_tracker.rs:282-291 | the quiet window answers yes if and only if the tracker is old enough and no print lease was alive at any instant of the window |
| LeaseProtocol.DrainingOnlyFinishes | apps/desktop/src-tauri/src/application/job_tracker.rs:75-86 | while draining, print leases only end |
| LeaseProtocol.WokenExactly | apps/desktop/src-tauri/src/application/job_tracker.rs:88-104 | a waiting drainer has a wakeup if and only if some release since it registered, before its check or after it, left nothing alive |
| TrackerAnswers.FlagsAreHistory | apps/desktop/src-tauri/src/application/job_tracker.rs:166-178 | over every history: the drain flag is set if and only if a drain began that nothing has cancelled since, and admission is closed if and only if a permit was issued and nothing has reopened admission since |
| TrackerAnswers.RequestGrantedExactly | apps/desktop/src-tauri/src/application/job_tracker.rs:218-230 | over every history: a request is admitted if and only if no restart closes admission, drain or no drain |
| TrackerAnswers.PromotionGrantedExactly | apps/desktop/src-tauri/src/application/job_tracker.rs:75-86 | over every history: a print job is admitted if and only if no drain is in force and no restart closes admission, whatever else is printing; the lease moves to the print leases with the time, and a refusal changes nothing |
| TrackerAnswers.DrainOkExactly | apps/desktop/src-tauri/src/application/job_tracker.rs:183-213 | over every history: a drain has returned Ok if and only if one of its checks found both counts zero |
| TrackerAnswers.DrainErrExactly | apps/desktop/src-tauri/src/application/job_tracker.rs:206-211 | over every history: a drain has returned the timeout error if and only if it waited until its deadline |
| TrackerAnswers.TimesOutInTime | apps/desktop/src-tauri/src/application/job_tracker.rs:183-213 | a drain that times out has waited at least its whole timeout |
| TrackerAnswers.DrainOkStaysEmpty | apps/desktop/src-tauri/src/application/job_tracker.rs:183-213 | after drain returned Ok, and while no drain is cancelled, no print lease exists |
| LeaseProtocol.IdleUntilCancelExactly | apps/desktop/src-tauri/src/application/job_tracker.rs:166-178 | from an idle state some run that cancels no drain reaches print work again if and only if no drain is in force; a held permit alone does not prevent it, because it can be dropped |
| LeaseProtocol.ParkedMissedNothing | apps/desktop/src-tauri/src/application/job_tracker.rs:183-213 | no lost wakeup: a parked drainer without a wakeup has not missed an instant with both counts zero since its check |
| ClientProxy.ProxyInvariant | apps/desktop/src-tauri/src/adapters/client_proxy.rs:237-243 | every live lease has exactly one owner among connections, pending jobs and other users, in every reachable state |
| ClientProxy.StepsNeverMiss | apps/desktop/src-tauri/src/adapters/client_proxy.rs:434-476 | whatever the program does next, the lease it touches is there |
| ClientProxy.CountersAreOwners | apps/desktop/src-tauri/src/adapters/client_proxy.rs:333-366 | active_jobs counts exactly the connections with a promoted lease plus the pending jobs plus outside leases; active_requests the unpromoted ones |
| ClientProxy.PermitMeansNoJobInFlight | apps/desktop/src-tauri/src/adapters/client_proxy.rs:434-462 | in runs that cancel no drain under a permit: while one is held no connection submits, continues or cancels a job and pending_jobs is empty |
| ClientProxy.EachLeaseDroppedOnce | apps/desktop/src-tauri/src/adapters/client_proxy.rs:434-476 | across overwriting, sweeping, Send-Document, Cancel-Job and early returns a lease is dropped at most once |
| ClientProxy.NothingLeaks | apps/desktop/src-tauri/src/adapters/client_proxy.rs:210-243 | a live lease survives a step with its owner or moves with its job, unless that step drops it |
| ClientProxy.PendingKeepsLease | apps/desktop/src-tauri/src/adapters/client_proxy.rs:434-476 | between Create-Job and its end a multi-step job keeps its print lease |
| ClientProxy.PendingIsHistory | apps/desktop/src-tauri/src/adapters/client_proxy.rs:434-456 | over every run: a job is pending if and only if a Create-Job answered with a successful status and a positive job id filed it and nothing since ended it: no sweep, no Cancel-Job, no last, failed or unanswered Send-Document; it holds the lease of the connection that filed it and the time of that answer |
| ClientProxy.StepDecidesPending | apps/desktop/src-tauri/src/adapters/client_proxy.rs:434-476 | exactly what one step does to one pending job: filed, ended, or left as it is |
| ClientProxy.EndedLeaseIsDropped | apps/desktop/src-tauri/src/adapters/client_proxy.rs:449-476 | the step that ends a pending job, or files it anew, drops its lease |
| ClientProxy.SweptWhenDue | apps/desktop/src-tauri/src/adapters/client_proxy.rs:333-336 | a pending job may be swept exactly from two minutes after it was filed |
| ClientProxy.DecodeDecides | apps/desktop/src-tauri/src/adapters/client_proxy.rs:338-366 | the lease of a print submission is promoted exactly when no drain is in force and admission is open, and otherwise kept for the refusal; a request that continues a job keeps its lease, a query gives it back |
| StatusRegistry.IndexOf | apps/desktop/src-tauri/src/application/coordinator.rs:113-120 | the entry of a service is the first one with its id |
| StatusRegistry.LegalMoves | apps/desktop/src-tauri/src/domain/service.rs:96-112 | the legal moves, seen from each target state; failing is legal exactly from the live states |
| StatusRegistry.Registry.Transition | apps/desktop/src-tauri/src/application/coordinator.rs:64-70 | a legal move is stored and published, anything else is refused and changes nothing; subscribers always hold the registry |
| StatusRegistry.Registry.SetDetail | apps/desktop/src-tauri/src/application/coordinator.rs:72-81 | the detail of exactly one service becomes the cleaned text and is published |
| StatusRegistry.DetailLeavesStates | apps/desktop/src-tauri/src/application/coordinator.rs:72-99 | a detail changes no state and no other service |
| CleanText.Sanitize | apps/desktop/src-tauri/src/domain/text.rs:6-28 | the character loop computes the cleaned text |
| CleanText.SanitizedIsPrintable | apps/desktop/src-tauri/src/domain/text.rs:3-28 | cleaned text has no control characters, starts with nothing blank and stays within the byte limit, plus the ellipsis when cut |
| CleanText.CleanIsKept | apps/desktop/src-tauri/src/domain/text.rs:3-28 | clean text that fits is published as it is |
| CleanText.SanitizedExactly | apps/desktop/src-tauri/src/domain/text.rs:6-28 | the published text is the longest beginning whose bytes fit, control characters as spaces, trimmed, with an ellipsis exactly when something was cut |
| StatusRegistry.Registry.Record | apps/desktop/src-tauri/src/application/coordinator.rs:83-99 | a recorded outcome is published in two steps, the state and then the detail; a refused move leaves both alone |
| Coordinator.AdvanceAccounted | apps/desktop/src-tauri/src/application/coordinator.rs:218-380 | every step of every call accounts for each uncancelled cancel sender: in running, with a call, fired or dropped |
| CoordinatorAnswers.StartAnswersExactly | apps/desktop/src-tauri/src/application/coordinator.rs:218-283 | over every run: start returns Ok if and only if, waiting for readiness, it reads the state Running |
| CoordinatorAnswers.FailedStartIsDiscarded | apps/desktop/src-tauri/src/application/coordinator.rs:268-280 | a start that sees Failed or reaches its deadline returns Err; its service is then not in running and not Starting, and each of its tasks is cancelled, over, or held by another call |
| CoordinatorAnswers.StopAnswersExactly | apps/desktop/src-tauri/src/application/coordinator.rs:286-337 | over every run: stop returns Ok if and only if it found no task in running or settles after the task it took, which is then over; reaching the deadline is Err |
| CoordinatorAnswers.StopMarkDecides | apps/desktop/src-tauri/src/application/coordinator.rs:296-312 | a service seen live is marked as stopping where that is legal; otherwise stop returns Err, changes no state and drops the sender it took |
| CoordinatorAnswers.ShutdownAnswersExactly | apps/desktop/src-tauri/src/application/coordinator.rs:339-380 | over every run: shutdown returns Ok if and only if it came to its end and no task it waited for was late; then every task that was in running when it began is over |
| CoordinatorAnswers.EndRecordsExactly | apps/desktop/src-tauri/src/application/coordinator.rs:475-509 | what the end of a supervised task records in any state: Stopped for a clean end that was asked for, nothing when it was recorded as stopped already, Failed otherwise, each only where the lifecycle allows it |
| Coordinator.NoOrphanEver | apps/desktop/src-tauri/src/application/coordinator.rs:246-363 | no orphaned service: in every run of overlapping calls, timeouts and self-ending tasks, an unfinished task can still be cancelled or already is |
| Coordinator.ShutdownReachesEverything | apps/desktop/src-tauri/src/application/coordinator.rs:339-380 | a shutdown begun with no call in progress leaves every task that existed cancelled when it is over |
| CoordinatorAgreement.AgreesExactly | apps/desktop/src-tauri/src/application/coordinator.rs:286-380 | the agreement invariant survives a step if and only if the step strands no service |
| CoordinatorPromises.AgreementIsTruthful | apps/desktop/src-tauri/src/application/coordinator.rs:286-380 | while status and task agree, stop returning Ok means Stopped with the task over, and shutdown returning Ok means no service is live or has an unfinished task |
| CoordinatorPromises.StartOkMeansRunning | apps/desktop/src-tauri/src/application/coordinator.rs:218-283 | in an agreeing session a start that returns Ok leaves the service Running, with exactly one unfinished task, the one filed in running |
| CoordinatorPromises.StoppedOrFailedCanStart | apps/desktop/src-tauri/src/application/coordinator.rs:218-283 | from an idle agreeing coordinator a start of a service can return Ok if and only if the service is Stopped or Failed |
| CoordinatorPromises.SupervisedEnd | apps/desktop/src-tauri/src/application/coordinator.rs:475-509 | in an agreeing session a task ends as Stopped exactly when it returned without error and had been seen stopping, and as Failed otherwise |
| CoordinatorPromises.LiesExactlyWhenStranded | apps/desktop/src-tauri/src/application/coordinator.rs:339-363 | after a step from an agreeing state, stop or shutdown can return Ok untruthfully if and only if the step strands a service: a rejected mark of shutdown while another service it took is still running |
| CoordinatorPromises.ShutdownCanStrandExactly | apps/desktop/src-tauri/src/application/coordinator.rs:339-363 | what a caller can check before: a shutdown of an idle agreeing coordinator can strand a service if and only if at least two services are published as running |
| CoordinatorPromises.ForgottenCanLie | apps/desktop/src-tauri/src/application/coordinator.rs:296-312 | a stop finds nothing to wait for and returns Ok for any forgotten service that is not Stopped, whatever its state |
| CoordinatorAgreement.SessionAgrees | apps/desktop/src-tauri/src/application/coordinator.rs:438-509 | in every serialised session without timeouts that strands nothing, each published state fits its task |
| CoordinatorAgreement.AtMostOneTask | apps/desktop/src-tauri/src/application/coordinator.rs:246-265 | in an agreeing session an unfinished task is the only one of its service, which is published as live |
| CoordinatorAgreement.StopOkMeansStopped | apps/desktop/src-tauri/src/application/coordinator.rs:286-337 | in an agreeing session stop returning Ok leaves the service Stopped and its task over |
| CoordinatorAgreement.ShutdownOkMeansStopped | apps/desktop/src-tauri/src/application/coordinator.rs:339-380 | in an agreeing session shutdown returns Ok and leaves every service it settled Stopped and its task over |
| CoordinatorAgreement.ShutdownStopsEverything | apps/desktop/src-tauri/src/application/coordinator.rs:339-380 | a shutdown that strands nothing returns Ok and every service is Stopped with no task |
| CoordinatorAgreement.SerialisedStopCanLie | apps/desktop/src-tauri/src/application/coordinator.rs:339-363 | a session from a fresh coordinator in which stop returns Ok for a service published as running whose task, its sender dropped and so cancelled, is not over at that moment |
| CoordinatorAgreement.StopSeesNothing | apps/desktop/src-tauri/src/application/coordinator.rs:296-312 | a stop on such a service that is published as running returns Ok and changes nothing |
| CommandLine.Backslashes | apps/desktop/src-tauri/src/adapters/elevation.rs:135-166 | the run of backslashes a text starts with |
| CommandLine.QuoteArgument | apps/desktop/src-tauri/src/adapters/elevation.rs:135-166 | the character loop computes the quoted form |
| CommandLine.QuoteRoundTrip | apps/desktop/src-tauri/src/adapters/elevation.rs:135-166 | for every string, splitting its quoted form by the Windows rules gives exactly that one argument |
| CommandLine.QuotedArgumentReads | apps/desktop/src-tauri/src/adapters/elevation.rs:129-166 | a quoted argument is read whole and leaves what follows untouched |
| CommandLine.LineRoundTrip | apps/desktop/src-tauri/src/adapters/elevation.rs:113-133 | a line of plain words and quoted texts splits into exactly those texts |
| Queues.RevalidationAccepts | apps/desktop/src-tauri/src/domain/queue.rs:121-130 | what the constructor accepted once it accepts again, unchanged |
| Queues.RequestNamesItsQueue | apps/desktop/src-tauri/src/domain/queue.rs:66-72 | the queue name is the derived one and carries nothing the spooler name syntax uses |
| Queues.DerivedNameIdentifies | apps/desktop/src-tauri/src/domain/queue.rs:66-105 | the queue name determines the printer and the address label, and only those |
| Queues.UnreadableAddress | apps/desktop/src-tauri/src/domain/queue.rs:82-98 | an address without letters, digits and dots is labelled server |
| Queues.ValidatesExactly | apps/desktop/src-tauri/src/domain/queue.rs:486-545 | exactly which addresses a queue request may carry, by their form |
| Queues.PrinterNamesExactly | apps/desktop/src-tauri/src/domain/printer.rs:21-38 | a printer name is accepted if and only if it is not blank, has at most 220 characters once trimmed and no control character, and is then trimmed |
| Queues.RequestsExactly | apps/desktop/src-tauri/src/domain/queue.rs:121-130 | a request is built if and only if the trimmed address is valid and the derived queue name can be carried, and then holds just these |
| Address.QueueNamesTellServersApart | apps/desktop/src-tauri/src/domain/queue.rs:61-105 | for every two addresses the client accepts and every two printers, the queue names are equal exactly when printer and normalised address are |
| Elevation.ParseQueueRequest | apps/desktop/src-tauri/src/adapters/elevation.rs:77-110 | the option loop computes the meaning of the arguments |
| Elevation.OptionsExactly | apps/desktop/src-tauri/src/adapters/elevation.rs:73-104 | reading succeeds if and only if both options are given exactly once, in either order, and nothing else |
| Elevation.QueueRequestExactly | apps/desktop/src-tauri/src/adapters/elevation.rs:77-110 | a queue is only requested for a server and printer named once each that validation accepts |
| Elevation.CommandLineExactly | apps/desktop/src-tauri/src/adapters/elevation.rs:47-71 | the app starts normally if and only if no argument asks for a setup; otherwise what follows the first such argument decides |
| Elevation.HelperRoundTrip | apps/desktop/src-tauri/src/adapters/elevation.rs:47-133 | the helper reads back exactly the request it was started for, for every server and printer; only the two queue actions sent bare are refused |
| ControlArguments.ParseService | apps/desktop/src-tauri/src/domain/service.rs:39-47 | an id is accepted exactly when it names a service |
| ControlArguments.ParseCliArgs | apps/desktop/src-tauri/src/adapters/daemon.rs:1649-1876 | the argument loop and the command match compute the parsed options |
| ControlArguments.PositionalsAreBare | apps/desktop/src-tauri/src/adapters/daemon.rs:1735-1742 | nothing that begins with a dash becomes positional |
| ControlArguments.FingerprintFollows | apps/desktop/src-tauri/src/adapters/daemon.rs:1712-1717 | a fingerprint option takes exactly the next argument |
| ControlArguments.ArgumentsRoundTrip | apps/desktop/src-tauri/src/adapters/elevated_ctl.rs:161-210 | the control program reads back exactly the mutation, JSON mode and socket if and only if the service is known and no value begins with a dash |
| ControlArguments.SecretStaysOff | apps/desktop/src-tauri/src/adapters/elevated_ctl.rs:152-177 | the arguments do not depend on the channel secret, and still read back |
| ControlArguments.StoppingDaemonShutsDown | apps/desktop/src-tauri/src/adapters/daemon.rs:1776-1777 | a fact of the parser: the words stop daemon are the command that shuts the daemon down |
| ControlGrammar.ScansExactly | apps/desktop/src-tauri/src/adapters/daemon.rs:1649-1742 | the argument loop accepts exactly the option and word sequences of a grammar, and collects exactly what they set |
| ControlGrammar.CommandExactly | apps/desktop/src-tauri/src/adapters/daemon.rs:1744-1876 | each command by its own list of words and the options it needs, and nothing else is a command |
| ControlGrammar.ParsesExactly | apps/desktop/src-tauri/src/adapters/daemon.rs:1649-1876 | a whole command line is accepted, with a given socket, mode and command, if and only if the grammar says so |
| ControlGrammar.PurgeIsConfirmed | apps/desktop/src-tauri/src/adapters/daemon.rs:1855-1857 | a purge is confirmed only by --confirm, --yes or -y among the arguments |
| ControlGrammar.DescriptorsExactly | apps/desktop/src-tauri/src/adapters/daemon.rs:1694-1705 | a descriptor is a number of at most 31 bits, with an optional plus sign; the only one that may be written negative is zero |
| Ipp.ParsePrinters | apps/desktop/src-tauri/src/adapters/client_connections.rs:682-737 | the position-based loop computes the parsed names; total on arbitrary bytes |
| Ipp.WalkMeans | apps/desktop/src-tauri/src/adapters/client_connections.rs:695-736 | the loop agrees with reading the items first and collecting names afterwards |
| Ipp.ReadItemsExactly | apps/desktop/src-tauri/src/adapters/client_connections.rs:695-733 | items are read exactly from their encodings, with everything after the end tag left over |
| Ipp.ParsedExactly | apps/desktop/src-tauri/src/adapters/client_connections.rs:682-737 | a response is accepted if and only if it is a successful, well-formed one with textual printer names, and then its names are returned |
| Ipp.PrefixRejected | apps/desktop/src-tauri/src/adapters/client_connections.rs:682-737 | every strict prefix of a response without trailing bytes is refused |
| Ipp.CutExactly | apps/desktop/src-tauri/src/adapters/client_connections.rs:682-737 | a response cut anywhere is accepted if and only if the end tag is still there and the names are text, and then lists the same printers |
| Ipp.NamesAreThePrinters | apps/desktop/src-tauri/src/adapters/client_connections.rs:724-731 | the list holds exactly the non-empty printer names of printer groups, each once |
| Ipp.NamesInFirstOrder | apps/desktop/src-tauri/src/adapters/client_connections.rs:724-731 | names are in the order of their first occurrence |
| Ipp.AttrWrites | apps/desktop/src-tauri/src/adapters/client_connections.rs:675-681 | the writer appends the encoding of the attribute |
| Ipp.ItemReadsExactly | apps/desktop/src-tauri/src/adapters/client_connections.rs:675-681 | an attribute reads back if and only if both lengths fit 16 bits and the name is text |
| Bytes.Utf8RoundTrip | apps/desktop/src-tauri/src/adapters/client_connections.rs:706-708 | text survives UTF-8 encoding and decoding |
| Bytes.DecodedEncodes | apps/desktop/src-tauri/src/adapters/client_connections.rs:706-708 | only the encoding of a text is read as it |
| ChunkedBody.ReadChunkedBody | apps/desktop/src-tauri/src/adapters/client_proxy.rs:543-614 | the reading loop computes the decoded body and what is left of the stream |
| ChunkedBody.Decode | apps/desktop/src-tauri/src/adapters/client_proxy.rs:589-599 | a returned body never exceeds the limit and extends what was read before |
| ChunkedBody.BodyRoundTrip | apps/desktop/src-tauri/src/adapters/client_proxy.rs:543-614 | however a body within the limit is chunked, decoding returns it and consumes exactly the encoding |
| ChunkedBody.TooLargeRefused | apps/desktop/src-tauri/src/adapters/client_proxy.rs:589-593 | a body over the limit is refused as too large wherever the excess begins |
| ChunkedBody.SizeLineReads | apps/desktop/src-tauri/src/adapters/client_proxy.rs:547-568 | a size line with extensions gives its size |
| ChunkedBody.SizeExactly | apps/desktop/src-tauri/src/adapters/client_proxy.rs:561-568 | the size of a line is what stands before its first semicolon, trimmed: an optional plus sign and hexadecimal digits of a 64-bit number; anything else is refused and named |
| ChunkedBody.SizeLineDecides | apps/desktop/src-tauri/src/adapters/client_proxy.rs:547-568 | for any bytes: the line of at most 1024 bytes at the front closes, fails or ends the body |
| ChunkedBody.DataDecides | apps/desktop/src-tauri/src/adapters/client_proxy.rs:589-611 | for any bytes: the data is too much, incomplete, badly delimited, or taken with just its delimiter |
| ChunkedBody.TruncationShowsExactly | apps/desktop/src-tauri/src/adapters/client_proxy.rs:547-588 | cutting the stream short is never mistaken for a shorter body if and only if no chunk size begins with a zero |
| Address.NormalisationIsIdempotent | apps/desktop/src-tauri/src/adapters/client_connections.rs:51-123 | parsing a normalised address gives the same address |
| Address.ParsesExactly | apps/desktop/src-tauri/src/adapters/client_connections.rs:51-123 | for any text and result: it is accepted as that host, port and normalised form if and only if, trimmed and free of URL characters and blanks, it is a bracketed or bare IPv6 address, a host name or an IPv4 address, each with or without a port as its form allows, and the port, 48631 by default, is not zero |
| Address.LabelsExactly | apps/desktop/src-tauri/src/adapters/client_connections.rs:86-99 | a host name is labels of 1 to 63 characters between its dots, none beginning or ending with a dash |
| Address.Ipv4Exactly | apps/desktop/src-tauri/src/adapters/client_connections.rs:78-79 | an IPv4 address is four numbers up to 255 in their decimal form |
| Text.ReadsU16Exactly | apps/desktop/src-tauri/src/adapters/client_connections.rs:101-104 | a port is digits with at most one plus sign whose value fits 16 bits |
| Address.NormalizedDetermines | apps/desktop/src-tauri/src/adapters/client_connections.rs:110-122 | normalised forms are equal exactly when the addresses are |
| Address.TrustedAddressesAccepted | apps/desktop/src-tauri/src/domain/queue.rs:486-545 | the check before elevation accepts every normalised address |
| Routing.PercentRoundTrip | apps/desktop/src-tauri/src/adapters/ipps/protocol.rs:1351-1395 | decoding an encoded text gives the text, for every text |
| Routing.StaysExactly | apps/desktop/src-tauri/src/adapters/ipps/protocol.rs:1351-1361 | a text is its own encoding if and only if all its characters are unreserved |
| Routing.EscapeIsRead | apps/desktop/src-tauri/src/adapters/ipps/protocol.rs:1367-1395 | an escape is read in either case of its digits |
| Routing.LonePercentStays | apps/desktop/src-tauri/src/adapters/ipps/protocol.rs:1367-1386 | a percent sign that begins no escape stands for itself |
| Routing.RoutesNameExactly | apps/desktop/src-tauri/src/adapters/client_proxy.rs:773-787 | a route names a destination if and only if it has exactly two segments, neither empty, that decode to an address and a printer name, and then it names these |
| Routing.PlainExactly | apps/desktop/src-tauri/src/adapters/client_proxy.rs:747-752 | a path leads where the route after ipp/print/ does, and nowhere without it |
| Routing.PartsExactly | apps/desktop/src-tauri/src/adapters/client_proxy.rs:723-745 | a URI leads where its path does, without query and fragment, if and only if its host is loopback and its port, if it has one, is the proxy port |
| Bytes.LossyIsExact | apps/desktop/src-tauri/src/adapters/ipps/protocol.rs:1367-1386 | decoding bytes that are text loses nothing |
| Routing.UriRoutesBack | apps/desktop/src-tauri/src/adapters/client_proxy.rs:713-753 | a queue URI routes back to its server and printer at exactly the loopback proxies |
| Routing.QueueUriRoundTrip | apps/desktop/src-tauri/src/adapters/client_proxy.rs:127-139 | the queue URI leads to exactly the normalised server and printer |
| Routing.RequestPathAgreesWithUri | apps/desktop/src-tauri/src/adapters/client_proxy.rs:756-787 | for any accepted request path the rebuilt URI routes to the same destination and is its queue URI |
| Routing.RequestPathRoundTrip | apps/desktop/src-tauri/src/adapters/client_proxy.rs:756-771 | the path of a queue URI is accepted and stands for that URI |
| PortReclaim.Verdict | apps/desktop/src-tauri/src/adapters/port_binding.rs:194-217 | what the last inspection of a poll means; success only when nobody holds the port |
| PortReclaim.ProgramNamesExactly | apps/desktop/src-tauri/src/adapters/port_binding.rs:67-77 | the three program names, in any case |
| Discovery.Cache.NearbyServers | apps/desktop/src-tauri/src/application/discovery.rs:137-145 | the list is the view of the event history at that time, whenever expiry ran |
| Discovery.Cache.Prune | apps/desktop/src-tauri/src/application/discovery.rs:168-177 | a sweep publishes exactly the view, and only if it changed |
| Discovery.Cache.Advertise | apps/desktop/src-tauri/src/application/discovery.rs:199-220 | an advertisement replaces what was known about its address; without lifetime it is a goodbye |
| Discovery.Cache.Withdraw | apps/desktop/src-tauri/src/application/discovery.rs:222-231 | a goodbye removes its address and nothing else |
| Discovery.Cache.Publish | apps/desktop/src-tauri/src/application/discovery.rs:190-195 | no list is published twice in a row |
| Discovery.Cache.Snapshot | apps/desktop/src-tauri/src/application/discovery.rs:240-250 | everything cached, strictly by label and then address |
| Discovery.ListingIsUnique | apps/desktop/src-tauri/src/application/discovery.rs:240-250 | the order leaves one list for each set of servers, so the list does not jump |
| Discovery.TextOrderExactly | apps/desktop/src-tauri/src/application/discovery.rs:243-248 | which text is before which: the smaller character where they first differ, or the shorter text |
| Discovery.ByLabelExactly | apps/desktop/src-tauri/src/application/discovery.rs:243-248 | servers are ordered by label, and those with one label by address |
| Discovery.ViewIsUnique | apps/desktop/src-tauri/src/application/discovery.rs:137-145 | there is one view for every history and time |
| Discovery.EventConcernsItsAddress | apps/desktop/src-tauri/src/application/discovery.rs:199-231 | an event changes visibility of its own address only, and either form of goodbye removes it |
| Discovery.CachedIsVisible | apps/desktop/src-tauri/src/application/discovery.rs:235-237 | after expiry the cache holds exactly what is visible |
| Discovery.SortedByLabel | apps/desktop/src-tauri/src/application/discovery.rs:243-248 | sorting gives a strict order |
| Sorting.SortOrders | apps/desktop/src-tauri/src/application/discovery.rs:243-248 | the stable sort puts elements in order |
| Sorting.SortPermutes | scripts/nightly/prune.ts:60-61 | the stable sort only rearranges |
| Sharing.NewSelection | apps/desktop/src-tauri/src/domain/printer.rs:59-67 | the loop computes the first occurrences |
| Sharing.DedupKeeps | apps/desktop/src-tauri/src/domain/printer.rs:53-67 | a selection has the same names, each once |
| Sharing.DedupInOrder | apps/desktop/src-tauri/src/domain/printer.rs:53-67 | names keep the order of their first occurrence |
| Sharing.Selection.SetShared | apps/desktop/src-tauri/src/application/sharing.rs:131-156 | only local queues are shared; the selection, its publication, the file and the returned list |
| Sharing.Selection.SetSharingEnabled | apps/desktop/src-tauri/src/application/sharing.rs:159-168 | the flag is kept and saved |
| Sharing.Selection.Restore | apps/desktop/src-tauri/src/application/sharing.rs:184-227 | the state becomes the restored one, published and saved only on change |
| Sharing.AutostartAfterRestore | apps/desktop/src-tauri/src/application/sharing.rs:170-187 | after restoring against a catalog with queues, sharing starts by itself exactly when it was on and a saved queue is still there |
| Sharing.RunsSurvive | apps/desktop/src-tauri/src/application/sharing.rs:65-107 | after any sequence of set, enable and restore calls that the disk did not fail, reopening gives the same selection and flag |
| Sharing.Selection.Keep | apps/desktop/src-tauri/src/application/sharing.rs:208-225 | what is left of the selection is selected and saved, and sharing is off when nothing is left |
| Sharing.SavedReopens | apps/desktop/src-tauri/src/application/sharing.rs:65-107 | what was saved for a selection is read back as it |
| Sharing.ReopensExactly | apps/desktop/src-tauri/src/application/sharing.rs:65-107 | opening reads the flag as it was saved and every saved name that is usable, trimmed, and no other; without a file sharing is off |
| Sharing.ReopenIsSelection | apps/desktop/src-tauri/src/application/sharing.rs:88-107 | whatever the file holds, opening gives valid names, each once |
| Sharing.RestoringIsStable | apps/desktop/src-tauri/src/application/sharing.rs:184-227 | restoring keeps exactly the present queues in order, never turns sharing on, does nothing without a catalog, and is idempotent |
| Advertising.RunKeepsInv | apps/desktop/src-tauri/src/adapters/server_sharing.rs:97-171 | what the run loop knows at every point is current or about to be corrected |
| Advertising.AdvertisementFollows | apps/desktop/src-tauri/src/adapters/server_sharing.rs:97-171 | whenever the loop has seen every change, none is in progress and the last replacement did not fail, the network shows the current selection |
| Advertising.NoChangeIsLost | apps/desktop/src-tauri/src/adapters/server_sharing.rs:133-156 | a difference between network and selection is always accounted for |
| Advertising.WakesForTheLatest | apps/desktop/src-tauri/src/adapters/server_sharing.rs:101-156 | over every run: the loop wakes only for a change published since it last looked, and takes the latest published selection to the network |
| Advertising.AdvertiserErrors | apps/desktop/src-tauri/src/adapters/server_sharing.rs:102-127 | an advertiser error ends the start if and only if it carries one of five phrases; any other leaves the service running unadvertised |
| Advertising.OutcomeIsServings | apps/desktop/src-tauri/src/adapters/server_sharing.rs:133-171 | the run returns what serving returned, or the fatal advertiser error, whatever the withdrawal does |
| Advertising.WithdrawnOnce | apps/desktop/src-tauri/src/adapters/server_sharing.rs:158-171 | every opened advertisement is withdrawn exactly once before the run returns |
| Advertising.FailedReplacementStays | apps/desktop/src-tauri/src/adapters/server_sharing.rs:143-150 | a failed replacement leaves the old list until the next change |
| PortReclaim.Reclaim | apps/desktop/src-tauri/src/adapters/port_binding.rs:169-219 | nothing is ended unless every first owner is a stale ShaPrint process, only those are, Ok means nobody holds the port, and the polls are bounded |
| PortReclaim.AwaitRelease | apps/desktop/src-tauri/src/adapters/port_binding.rs:192-218 | the polling loop ends by the deadline for every interval, zero included, and only waits on processes that may linger |
| PortReclaim.TerminateAll | apps/desktop/src-tauri/src/adapters/port_binding.rs:188-190 | owners are ended in order until one cannot be |
| PortReclaim.FirstConflict | apps/desktop/src-tauri/src/adapters/port_binding.rs:178-182 | the first owner that must not be ended |
| PortReclaim.FirstIntruder | apps/desktop/src-tauri/src/adapters/port_binding.rs:198-207 | the first process that must not hold the port while waiting |
| PortReclaim.PlaceDoesNotMatter | apps/desktop/src-tauri/src/adapters/port_binding.rs:67-77 | neither the directory nor an .exe ending changes whether a process is ShaPrint |
| NightlyVersion.ComparesByOrder | scripts/nightly/version.ts:81-93 | the comparator is the order of nightlies, with everything else before them |
| NightlyVersion.Highest | scripts/nightly/version.ts:125-139 | the walk finds the newest nightly |
| NightlyVersion.CalculateNext | scripts/nightly/version.ts:110-169 | the next version and its tag |
| NightlyVersion.FormatReads | scripts/nightly/version.ts:159-162 | a formatted version is a nightly if and only if its base is exactly X.Y.Z, and its tag means the same |
| NightlyVersion.NightliesExactly | scripts/nightly/version.ts:27-49 | a text is a given nightly if and only if, between blanks and after at most one v, it is three numbers joined by dots, -nightly. and the build |
| NightlyVersion.StemReads | scripts/nightly/version.ts:113-116 | a stem is what stands before the first dash of a cleaned version |
| NightlyRuns.NextNumberExactly | scripts/nightly/version.ts:110-169 | exactly which number comes next, when one does: the chosen base with the exact build |
| NightlyRuns.BuildExactly | scripts/nightly/version.ts:151-157 | on the newest nightly base the build is the larger of newest build + 1 and the run number, on any other base the larger of 1 and the run number |
| NightlyRuns.TargetIsHighest | scripts/nightly/version.ts:140-150 | the chosen base is at least the main base, the commit base and the newest nightly base |
| NightlyRuns.TargetIsOneOf | scripts/nightly/version.ts:140-150 | and is one of them |
| NightlyRuns.CommitDefaults | scripts/nightly/version.ts:113-116 | without a commit base the commit counts as the main base |
| NightlyRuns.NextExceedsAll | scripts/nightly/version.ts:110-169 | the next version is newer than every tag and its base at least the main and commit base, exactly when the chosen base is X.Y.Z |
| NightlyRuns.ExactBasesSuffice | scripts/nightly/version.ts:113-150 | exact main and commit bases are enough |
| NightlyRuns.FeedAdvances | scripts/nightly/feed.ts:34-42 | a new version can replace any tagged one in the feed |
| NightlyRuns.FeedAdvancesExactly | scripts/nightly/feed.ts:34-42 | the feed advances if and only if it serves nothing, or the new version is a nightly and newer than what it serves, if that is a nightly at all |
| NightlyRuns.PlanDivides | scripts/nightly/prune.ts:35-84 | every release is the feed holder, a nightly prerelease that is retained or deleted, or stable and never deleted, and each of the three lists holds just these |
| NightlyRuns.DividesAll | scripts/nightly/prune.ts:63-76 | of the sorted nightlies those within retainCount and the active one stay, and just the others go |
| NightlyRuns.DeterminePrunePlan | scripts/nightly/prune.ts:35-84 | the two loops and the sort compute the plan |
| NightlyRuns.NewerOneStays | scripts/nightly/prune.ts:60-76 | with distinct tags and retainCount at least 1 nothing is deleted unless another release at least as new stays |
| NightlyRuns.PruningKeepsNewest | scripts/nightly/prune.ts:35-84 | with distinct release tags that all exist and retainCount at least 1 pruning leaves the newest nightly |
| NightlyRuns.PruningKeepsNextVersion | scripts/nightly/prune.ts:35-84 | so the next computed version does not change |
| NightlyRuns.PruningKeepsNewestExactly | scripts/nightly/prune.ts:35-84 | for any list of tagged releases and any retainCount, the newest number survives if and only if one of its tags is active or has no release beyond the first retainCount that carry the number |
| NightlyRuns.PruningCanLoseTheNewest | scripts/nightly/prune.ts:35-84 | two plans that lose it: a release listed twice, and retaining none |
| Sorting.SortIsStable | scripts/nightly/prune.ts:60-61 | what the comparator does not tell apart keeps its order |
| NightlyRuns.NumbersIncrease | scripts/nightly/version.ts:110-169 | over any history of publishing, pruning and tagging the published numbers strictly increase and never repeat a pruned one |

## Left out

- TLS, certificates, hashing, the registry, the spooler, UAC, polkit and firewall calls: foreign code.
- Sockets, timers and files: streams are bytes, the clock only moves forward, and a write either
  succeeds or leaves the file as it was.
- Poisoned locks and panics are taken not to happen; counters are unbounded numbers, which the
  balance of grants and drops keeps small.
- The two steps in which a stop reads and then records the outcome of a task that already ended are
  one in `Coordinator`, which follows states and leaves details out.
- StatusRegistry.Registry.Record: nothing comes between its two steps in the contract, while in the
  source another call may; `StatusRegistry.DetailLeavesStates` says why states do not depend on it.
- `shutdown` handles the entries it took in any order, which includes every order of the source.
- The Windows splitter works on characters, not on UTF-16 units; a doubled quote inside quotes is
  allowed both of its documented readings. The first argument, the program, is taken as it is.
- IPv6 addresses are read and printed by a parameter of which `Address.Lawful` says all that is
  assumed: reading a printed address gives it back, it is short and lower case, and two of them never
  differ only in leading colons (`Address.LawfulIsPossible` shows that it can be met); IPv4 addresses are modelled.
- `usize` has 64 bits in `ChunkedBody`; errors while reading a stream are not modelled, only its end.
- Additional values of a multi-valued IPP attribute have an empty name and are ignored, as in the code.
- The calls of `Discovery.Cache` do not overlap: one task polls browsing and sweeping, and the only
  caller from elsewhere, `nearby_servers`, publishes nothing.
- The proxy's connections, the control calls and the sharing run loop are steps of state machines on
  values, because what is proved concerns every interleaving of them; that their maps are updated in
  place is not captured.
- Expired pending jobs are swept one at a time, at any moment from two minutes on; the source sweeps all
  that are due together, whenever a connection or its timer gets to it.
- A connection that fails for lack of a credential, or while it is decoded, answers like one that closes:
  only what it does to leases is followed.
- Overlapping changes of the selection: changes are serialised in `Advertising`.
- `Advertising` leaves out the branch for a closed watch channel, which cannot happen while the
  service holds the sender, and takes the endpoint's serving as one step that may end at any time.
- In `PortReclaim` an inspection takes at least one tick of the clock, so the loop ends for a zero poll
  interval too. The one attempt to bind again after a reclaim is not modelled.
- Nightly numbers are unbounded, while JavaScript rounds beyond 2^53; the run number is an integer.
- The socket path of the helper arguments is text; a path that is not Unicode is printed lossily.
- NightlyRuns.NumbersIncrease: the releases given to a prune step are tagged once each and their tags
  still exist; without that the newest number survives exactly as `NightlyRuns.PruningKeepsNewestExactly` says.
- `start_autostart` only calls `start` for one service after another; its order is not modelled.
- Request heads are not parsed: a body is modelled from its first chunk size on.
- The IPPS server, the user interface, diagnostics, purge, legacy import and the other release scripts
  are not modelled, because no property stated here depends on them.
