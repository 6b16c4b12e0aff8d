# Network-control core of the VPN gateway

The `proxy` package turns a Linux machine into a VPN gateway for a LAN. This project models its network-control core and
proves what that core is for:

* **Kill switch.** Settings and the tunnel's name compile to an nftables script (`Ruleset`). nftables itself is modelled
  in `Nft`: a script is one transaction, and a chain's first terminal verdict wins. `ForwardVerdict` says exactly which
  packets a generated table forwards, marks and redirects.
* **Controller.** `GatewayController` is the object that queues rebuilds and set additions. Every `await` is a point
  where anything else may happen, so a queued job is started by one event and finished by later ones. The `Controller*`
  modules and `BypassSet` prove what holds over every order of events, nft failures and timeouts included:
  `ControllerSafety` that nothing leaks, `ControllerRequests` when requests act, `ControllerMemory` and
  `ControllerAgreement` that what is registered stays, in memory and in the kernel, `ControllerIdle` what a
  controller at rest and its status mean, `ControllerRejection` when it stops for good.
* **DNS relay.** `DnsMessage` and `DnsTheorems` are the wire codec, `TcpFraming` the reassembly of TCP messages,
  `DomainMatcher` the matching of excluded domains, `DnsRelay` the handling of one query.
* **All of it together.** `EndToEnd` runs relay, controller and kernel as one system; `BypassProvenance` and
  `ReplyAfterInstall` prove where bypassed addresses and connections come from and when answers may be sent.
* **Explicit proxy.** `ProxyConfig` builds the 3proxy configuration, `ExplicitProxy` supervises the process,
  `SupervisorRuns` proves what the supervisor keeps, `SupervisorCounts` how it counts crashes and what it reports.
* **Running commands.** `CommandRunner` settles a promise once, whatever order output, exit, error and timers come in.
* **Auditing.** `NftListing` reads `nft list table` back, `RuleAudit` judges it, `AuditAgreement` proves that the verdict
  about the text is a statement about packets.
* **Arithmetic and conversion.** `Ipv4` is the 32-bit CIDR arithmetic, `SettingsRequest` the conversion of a settings request.

Objects that the source updates in place are classes. Each of their methods is proved to perform exactly one step of a
pure transition function (`ensures View() == Step(old(View()), e)`), and the theorems are about every sequence of steps.

Where the code and its own comments differ, the model follows the code:

* `truncateForUdp` promises a result within the limit. A question longer than the limit, which `readName` accepts because
  names are not limited to 255 bytes, gives a longer one (`DnsTheorems.TruncationFitsExactly`, `QuestionMayExceedLimit`).
* `buildServfail` promises a reply that carries the question. A question whose name points into the rewritten header is
  accepted, and the reply to it may be unreadable (`HeaderPointerBreaksServfail`). `ErrorReplyReadsBack` says, for every
  accepted query, what the reply reads back as; uncompressed names are always carried.
* A rebuild that tears down takes its nft call for a success whatever it returns, on the ground that the table may just
  not exist. A call that times out or cannot be started leaves the old table in force; the status says "stopped", and the
  settings, sent again every ten seconds, count as unchanged, so that it is never retried
  (`ControllerIdle.FailedTeardownIsForgotten`, `ControllerRejection.StoppedOverLeftTable`). `ControllerIdle.IdleMeansCurrent`
  says exactly when the table is gone.
* The builder throws on an interface name outside `[A-Za-z0-9_.-]{1,15}`, and the connection monitor passes on whatever
  name the tunnel has. Linux allows more, `wg+1` for one, and then the promise queue stays rejected: nothing is ever applied
  again while the status goes on following the settings (`RejectionIsFinal`, `StatusAfterRejection`). `RejectedExactly` says
  when a rebuild is rejected, `SettingsRequest.RejectedRunExactly` when that happens in a running server: exactly when a
  rebuild that calls for a table reads such a name.
* `getStatus` promises the outcome of the last attempt. It runs ahead of a queued rebuild (`StatusRunsAheadOfRebuild`).
  `ControllerIdle.StatusExactly` says, for every reached state, when an active status is the truth; at rest it is
  (`IdleStatusIsExact`).
* The kill switch audit looks for a direct path by name. With a tunnel of the WAN interface's name it fails although the
  kill switch is on; `KillSwitchAuditExactly` and `AuditMatchesKernel` hold for all names.
* A name that is a wildcard pattern's labels behind one empty label is not matched (`DomainMatcher.EmptyFrontLabelNotMatched`);
  `MatchesExactly` states the rule for all names.
* The background callback also fires when a process exits after a plain timeout (`CommandRunner.CallbackAfterPlainTimeout`).

## Model

| member | source | states |
|---|---|---|
| Ipv4.ParseRenderCidr | proxy/src/lib/ipv4-cidr.ts:11-17 | every rendered address block parses back to the same octets and prefix |
| Ipv4.ToUint32Value | proxy/src/lib/ipv4-cidr.ts:19-25 | shifting and or-ing four octets in 32 bits gives the base-256 number |
| Ipv4.MaskKeepsBlock | proxy/src/lib/ipv4-cidr.ts:40-41 | for every prefix 0 to 32 the wrapping shift makes a mask that clears exactly the host bits |
| Ipv4.InCidrIsSameBlock | proxy/src/lib/ipv4-cidr.ts:33-42 | an address is in a CIDR exactly when both are well formed and agree after division by 2^(32-n) |
| Ipv4.InCidrIffSameNetwork | proxy/src/network/lan-subnet.ts:31-43 | membership of a in b/n is equality of the network CIDRs of a/n and b/n |
| Ipv4.NetworkContainsHostAndIsFixed | proxy/src/network/lan-subnet.ts:31-43 | the network of a host contains the host and is its own network |
| Ruleset.Validate | proxy/src/network/ruleset.ts:102-126 | a problem is reported exactly for malformed input, and names a value that is malformed |
| Ruleset.BuildGatewayRuleset | proxy/src/network/ruleset.ts:98-231 | throws exactly on malformed input, otherwise emits the specified script |
| Ruleset.ScriptInstallsTable | proxy/src/network/ruleset.ts:128-230 | on any host, with or without an older table, the script succeeds as one transaction, leaves exactly the intended table and touches no other |
| Ruleset.TeardownRemovesTable | proxy/src/network/ruleset.ts:84-86 | teardown removes this table only, and fails exactly when there is none |
| ForwardVerdict.ForwardExactly | proxy/src/network/ruleset.ts:193-230 | the packets forwarded by a generated table are exactly a stated set, for any names and flags |
| ForwardVerdict.NoLeak | proxy/src/network/ruleset.ts:213-228 | with a tunnel or the kill switch, LAN-originated packets leave only by the tunnel the table was built for |
| ForwardVerdict.KillSwitchIdleWithTunnel | proxy/src/network/ruleset.ts:213-225 | with a tunnel the kill switch changes no verdict |
| ForwardVerdict.KillSwitchRemovesDirectPath | proxy/src/network/ruleset.ts:220-228 | without one, turning it on only removes packets, exactly the LAN-originated ones bound for the WAN |
| ForwardVerdict.MarkExactly | proxy/src/network/ruleset.ts:161-164 | exactly LAN-entering packets to an address in the bypass set get both marks |
| ForwardVerdict.OutputMarkExactly | proxy/src/network/ruleset.ts:165-169 | exactly the explicit proxy's own packets to the bypass set get the packet mark, and no connection mark |
| ForwardVerdict.MasqueradeExactly | proxy/src/network/ruleset.ts:170-174 | exactly what leaves by the permitted way out, and marked packets leaving by the WAN, is masqueraded |
| ForwardVerdict.RedirectExactly | proxy/src/network/ruleset.ts:176-191 | exactly the LAN's port 53 queries to no excluded destination are sent to the relay |
| BypassSet.BypassSet.Add | proxy/src/network/bypass-set.ts:34-45 | registers or extends exactly the bypassable records and returns what nft must add |
| BypassSet.BypassSet.Live | proxy/src/network/bypass-set.ts:50-61 | returns the unexpired entries with their remaining seconds and forgets the others |
| BypassSet.BypassSet.Size | proxy/src/network/bypass-set.ts:63-65 | counts the unexpired entries, forgetting the others |
| BypassSet.BypassSet.Clear | proxy/src/network/bypass-set.ts:67-69 | forgets everything |
| BypassSet.DeadlineIsLatest | proxy/src/network/bypass-set.ts:34-61 | after any history, a held deadline is the latest one registered since the last clear |
| BypassSet.DeadlineNearRegistration | proxy/src/network/bypass-set.ts:38-39 | a deadline lies 60 to 3660 s after its registration |
| BypassSet.RebuildTimeoutsDoNotDrift | proxy/src/network/bypass-set.ts:50-61 | rebuilds are handed exactly the unexpired addresses, each timeout at least 1 s and less than 1 s too long, however often carried over |
| GatewayController.GatewayController.ApplySettings | proxy/src/network/gateway-controller.ts:112-122 | performs the step: remember the settings, queue a rebuild unless they are unchanged and in force |
| GatewayController.GatewayController.UpdateVpnInterface | proxy/src/network/gateway-controller.ts:131-137 | performs the step: queue a rebuild when the tunnel changed |
| GatewayController.GatewayController.AddBypass | proxy/src/network/gateway-controller.ts:185-201 | performs the step: remember the addresses, queue an addition when bypass is active |
| GatewayController.GatewayController.BypassEntryCount | proxy/src/network/gateway-controller.ts:203-206 | performs the step: counts the unexpired entries and forgets the others |
| GatewayController.GatewayController.StartNext | proxy/src/network/gateway-controller.ts:190-191 | performs the step: begin the oldest queued job, skipping an addition that no longer applies |
| GatewayController.GatewayController.ApplyCurrentState | proxy/src/network/gateway-controller.ts:233-262 | performs the start of a rebuild: read settings, tunnel and memory, build or tear down, or reject the queue |
| GatewayController.GatewayController.NftDone | proxy/src/network/gateway-controller.ts:241-263 | performs the step after an nft call, for each of its outcomes |
| GatewayController.GatewayController.SyncDone | proxy/src/network/gateway-controller.ts:243-264 | performs the end of a rebuild or teardown |
| GatewayController.GatewayController.GetStatus | proxy/src/network/gateway-controller.ts:146-173 | returns the status function of the state |
| ControllerSafety.KernelAlways | proxy/src/network/gateway-controller.ts:233-272 | at every moment of every run the kernel's table is the one the last effective rebuild compiled, and its bypass set holds at least that rebuild's entries |
| ControllerSafety.ReadAlways | proxy/src/network/gateway-controller.ts:112-137 | at every moment the newest settings and tunnel have been read by a rebuild or one is queued, unless the queue is rejected |
| ControllerIdle.IdleMeansCurrent | proxy/src/network/gateway-controller.ts:227-272 | at rest after a success: the last settings, if they call for a table, have it, compiled from them and the last tunnel; if they call for none, there is none exactly if the last teardown's nft call took effect or found none |
| ControllerIdle.IdleServesSettings | proxy/src/network/gateway-controller.ts:233-262 | at rest after a success the kernel forwards, marks and redirects every packet as the last settings ask, and does none of it unless asked |
| ControllerIdle.FailedTeardownIsForgotten | proxy/src/network/gateway-controller.ts:112-122 | from any state at rest, a teardown without effect ends at rest and successful over the unchanged kernel, and the same settings again change nothing |
| ControllerIdle.StatusExactly | proxy/src/network/gateway-controller.ts:146-173 | in every reached state, whatever is queued, in flight or rejected, an active status is the truth about LAN packets if and only if the installed table has the gateway on and the reported way out |
| ControllerIdle.IdleStatusIsExact | proxy/src/network/gateway-controller.ts:146-173 | at rest an active status is the truth, and blocking is reported exactly when no way out is |
| ControllerRequests.SettingsQueueExactly | proxy/src/network/gateway-controller.ts:112-122 | in every run, settings queue a rebuild exactly when they differ from the last ones, nothing was asked before, or the last rebuild failed |
| ControllerRequests.FailedRebuildIsRetried | proxy/src/network/gateway-controller.ts:112-122 | after a failed rebuild any settings sent, the same ones too, queue another |
| ControllerRequests.TunnelQueueExactly | proxy/src/network/gateway-controller.ts:131-137 | news of the tunnel queues a rebuild exactly when it changed |
| ControllerRequests.RegistrationQueueExactly | proxy/src/network/gateway-controller.ts:185-199 | a registration is queued exactly when the LAN is known, the last settings ask for bypass and a record can be bypassed |
| ControllerRequests.AdditionRunsExactly | proxy/src/network/gateway-controller.ts:190-192 | a queued addition calls nft exactly when the last rebuild succeeded and bypass is still asked for |
| ControllerRequests.StatusOfRun | proxy/src/network/gateway-controller.ts:146-173 | each status, in terms of the last settings, the last tunnel and the outcome of the last rebuild alone |
| ControllerMemory.HeldIsLatestRegistered | proxy/src/network/bypass-set.ts:34-70 | in every run of the controller a held deadline is the latest registered since the memory was last emptied, and every address whose deadline is ahead is held |
| ControllerMemory.RebuildCarriesOver | proxy/src/network/gateway-controller.ts:247-261 | a rebuild with bypass carries over exactly the addresses whose deadline is ahead, each timeout less than a second too long |
| ControllerMemory.RegisteredIsInstalled | proxy/src/network/gateway-controller.ts:185-272 | at rest every registered address whose deadline is ahead is in the kernel's set, through any rebuilds since |
| ControllerMemory.BypassableExactly | proxy/src/network/bypass-set.ts:76-84 | every rendered address is bypassable unless it is 0.x, loopback or link-local |
| ControllerSafety.LeakSafety | proxy/src/network/gateway-controller.ts:227-272 | if every rebuild reads protected settings, then from the first install on the kernel never forwards a LAN-originated packet except by the tunnel its table was built for |
| ControllerAgreement.HeldIsInstalled | proxy/src/network/gateway-controller.ts:185-201 | when the queue is idle with bypass active and nothing failed, every held address is in the kernel's set |
| ControllerAgreement.CompletedIsInstalled | proxy/src/network/gateway-controller.ts:190-200 | in steady runs an addition completes only with all its addresses in the kernel's set |
| ControllerAgreement.RegistrationIsQueued | proxy/src/network/gateway-controller.ts:185-189 | while bypass is active a registration is queued with all its bypassable addresses, or has none |
| ControllerRejection.HeldAlwaysValid | proxy/src/network/bypass-set.ts:34-45 | in every run all held addresses are bypassable IPv4 addresses |
| ControllerRejection.RejectedExactly | proxy/src/network/gateway-controller.ts:252-261 | a rebuild rejects the queue exactly when a table is needed and names, uid or redirect are malformed |
| ControllerRejection.RejectionIsFinal | proxy/src/network/gateway-controller.ts:227-231 | after a rejection no event ever changes the kernel again |
| ControllerRejection.StatusRunsAheadOfRebuild | proxy/src/network/gateway-controller.ts:146-173 | a run in which the status says blocking while the kernel still forwards to the WAN |
| ControllerRejection.StatusAfterRejection | proxy/src/network/gateway-controller.ts:146-173 | a run, with a tunnel name that Linux allows, in which it keeps saying so with nothing left in the queue |
| ControllerRejection.StoppedOverLeftTable | proxy/src/network/gateway-controller.ts:237-246 | a run that ends stopped and content over the old table, which the same settings again do not remove |
| DnsMessage.ReadName | proxy/src/dns-relay/dns-message.ts:46-70 | terminates on every buffer and returns the recursive reading of section 4.1.4 of RFC 1035 with at most 32 pointers |
| DnsMessage.ParseAnswer | proxy/src/dns-relay/dns-message.ts:98-130 | returns the answer as specified section by section |
| DnsMessage.ReadQuestions | proxy/src/dns-relay/dns-message.ts:105-110 | skips exactly the announced questions, or fails |
| DnsMessage.ReadRecords | proxy/src/dns-relay/dns-message.ts:111-128 | collects the records up to the first that is not all there |
| DnsMessage.WriteErrorResponse | proxy/src/dns-relay/dns-message.ts:191-201 | writes, into a fresh buffer, the specified error reply |
| DnsMessage.WriteTruncated | proxy/src/dns-relay/dns-message.ts:208-216 | writes the specified truncated reply |
| DnsTheorems.ReaderMatchesStandard | proxy/src/dns-relay/dns-message.ts:46-70 | labels are returned exactly when the bytes spell them through at most 32 pointers |
| DnsTheorems.NameSurvivesExtension | proxy/src/dns-relay/dns-message.ts:46-70 | a name read from a buffer reads identically from every extension |
| DnsTheorems.AnswerSurvivesExtension | proxy/src/dns-relay/dns-message.ts:98-130 | what a cut-off message yields is a prefix of what the full one yields |
| DnsTheorems.ParseInvertsBuildA | proxy/src/dns-relay/dns-message.ts:159-171 | parsing inverts building an A query; the builder refuses exactly names with an empty or overlong label |
| DnsTheorems.ParseInvertsBuildPtr | proxy/src/dns-relay/dns-message.ts:138-151 | parsing inverts building a PTR query; the builder refuses exactly malformed addresses |
| DnsTheorems.Latin1NamesUnchanged | proxy/src/dns-relay/dns-message.ts:162-162 | Latin-1 names survive encoding unchanged |
| DnsTheorems.ErrorReplyReadsBack | proxy/src/dns-relay/dns-message.ts:178-201 | for every accepted query a SERVFAIL or NXDOMAIN reply has its id and reads back with the code, no TC bit and no records unless its name is unreadable; the name is the same if all bytes met are kept, unreadable if one is lost, and otherwise, with lengths and pointers kept, the same exactly if the text is |
| DnsTheorems.ThreeFates | proxy/src/dns-relay/dns-message.ts:191-216 | every readable name has its lengths and pointers kept by such a rewrite, or is lost, or is redirected |
| DnsTheorems.SameNameExactly | proxy/src/dns-relay/dns-message.ts:191-201 | with lengths and pointers kept, the name is the same exactly when every byte of it is |
| DnsTheorems.UncompressedQuestionIsKept | proxy/src/dns-relay/dns-message.ts:77-91 | every uncompressed question is kept by an error reply |
| DnsTheorems.HeaderPointerBreaksServfail | proxy/src/dns-relay/dns-message.ts:191-201 | a query accepted by the parser whose SERVFAIL reply cannot be read |
| DnsTheorems.TruncatedReplyReadsBack | proxy/src/dns-relay/dns-message.ts:208-216 | for every response over the limit the truncated reply has its id and reads back with its code, the TC bit and no records, exactly if its questions can be read; kept ones can, a lost one cannot |
| DnsTheorems.RepeatedQuestionIsKept | proxy/src/dns-relay/dns-message.ts:208-216 | a response that repeats an uncompressed question keeps it |
| DnsTheorems.TruncationFitsExactly | proxy/src/dns-relay/dns-message.ts:203-216 | the result is within the limit exactly when the response or the question was |
| DnsTheorems.QuestionMayExceedLimit | proxy/src/dns-relay/dns-message.ts:218-225 | buildable queries exist whose truncated reply exceeds the UDP limit |
| DnsTheorems.AnswerReadsBack | proxy/src/dns-relay/test-helpers.ts:21-36 | any questions and any list of records of any types, owned by a compressed name, parse to exactly the addresses among them in order |
| DnsTheorems.PtrAnswerReadsBack | proxy/src/dns-relay/dns-message.ts:123-126 | a PTR record parses to the name it was made of |
| DnsTheorems.QuestionExactly | proxy/src/dns-relay/dns-message.ts:77-91 | which queries are accepted, which bytes are taken from them, and which limit they get |
| TcpFraming.TcpConnection.OnData | proxy/src/dns-relay/listener.ts:41-57 | one chunk hands on exactly the messages it completes and keeps the rest |
| TcpFraming.Converse | proxy/src/dns-relay/listener.ts:40-57 | a whole connection behaves as the specification of its chunks |
| TcpFraming.ChunkingIsInvisible | proxy/src/dns-relay/listener.ts:41-57 | how a stream is cut into chunks makes no difference |
| TcpFraming.ReassemblyExactly | proxy/src/dns-relay/listener.ts:41-57 | the handler has received exactly these messages and this tail is pending if and only if the stream is their frames and the tail |
| DomainMatcher.CreateDomainMatcher | proxy/src/dns-relay/domain-matcher.ts:42-53 | the loop compiles the list of patterns, ignoring malformed ones |
| DomainMatcher.MatchesExactly | proxy/src/dns-relay/domain-matcher.ts:42-59 | for every name, the matcher is true exactly when a valid pattern matches label by label, one stated exception apart |
| DomainMatcher.NonemptyLabelsMatchExactly | proxy/src/dns-relay/domain-matcher.ts:42-59 | for names with nonempty labels there is no exception |
| DomainMatcher.EmptyFrontLabelNotMatched | proxy/src/dns-relay/domain-matcher.ts:57-57 | the exception occurs |
| DomainMatcher.OnlyContentsMatter | proxy/src/dns-relay/domain-matcher.ts:42-59 | order, duplicates, case and one trailing dot never matter |
| DomainMatcher.CaseAndDotNormalized | proxy/src/dns-relay/domain-matcher.ts:14-17 | case and one trailing dot disappear in normalisation |
| DomainMatcher.PatternExactly | proxy/src/dns-relay/domain-matcher.ts:6-33 | a pattern is valid exactly when it is two or more labels of the stated form, at most 253 characters, plain or behind `*.` |
| DnsRelay.DnsRelay.UpdateConfig | proxy/src/dns-relay/relay.ts:65-69 | replaces configuration and matcher together, and drops the client names exactly when their servers change |
| DnsRelay.DnsRelay.Handle | proxy/src/dns-relay/relay.ts:98-102 | begins a request, or ignores an unreadable query |
| DnsRelay.DnsRelay.AfterInterceptor | proxy/src/dns-relay/relay.ts:102-104 | answers an intercepted query with NXDOMAIN |
| DnsRelay.DnsRelay.Forward | proxy/src/dns-relay/relay.ts:127-137 | asks the upstream, or the plain servers when there is none |
| DnsRelay.DnsRelay.UpstreamDone | proxy/src/dns-relay/relay.ts:136-147 | performs the step after the upstream call |
| DnsRelay.DnsRelay.PlainDone | proxy/src/dns-relay/relay.ts:107-124 | performs the step after the plain call |
| DnsRelay.DnsRelay.Settle | proxy/src/dns-relay/relay.ts:114-124 | registers the A records of a matched NOERROR answer, or replies |
| DnsRelay.DnsRelay.RegistrationDone | proxy/src/dns-relay/relay.ts:117-124 | success and failure of a registration both let the response go |
| DnsRelay.DnsRelay.SetUpstreamState | proxy/src/dns-relay/relay.ts:150-154 | reports changes of the upstream state only |
| DnsRelay.ReplyIsJustified | proxy/src/dns-relay/relay.ts:98-125 | whatever else happens, a reply is NXDOMAIN when intercepted, SERVFAIL after a failure, or a response given, whose records were registered first if the name matched |
| DnsRelay.AnswerHandledExactly | proxy/src/dns-relay/relay.ts:114-124 | in every life, a NOERROR answer with A records to a bypassed name makes exactly all of them the registration waited for, before any reply; any other answer is sent at once |
| DnsRelay.RegistrationReleases | proxy/src/dns-relay/relay.ts:117-124 | once the registration has ended, well or not, the response is sent |
| DnsRelay.InterceptedExactly | proxy/src/dns-relay/relay.ts:102-104 | an intercepted query is answered by NXDOMAIN, and nobody is ever asked or told about it |
| DnsRelay.NotAskedYet | proxy/src/dns-relay/relay.ts:99-109 | nothing is forwarded before the interceptor has declined |
| DnsRelay.UpstreamStateExactly | proxy/src/dns-relay/relay.ts:136-154 | the upstream's state follows its answers and failures only, and exactly its changes are announced |
| DnsRelay.ForgetsExactly | proxy/src/dns-relay/relay.ts:65-69 | client names are dropped exactly when the list of their servers changes |
| DnsRelay.OnlyMatchedAnswersRegister | proxy/src/dns-relay/relay.ts:114-123 | only A records of NOERROR answers to matching names are ever registered |
| DnsRelay.PlainOnlyAsConfigured | proxy/src/dns-relay/relay.ts:127-147 | plain servers are asked exactly as the configuration read at the start permits |
| DnsRelay.ServfailOnlyWhenExhausted | proxy/src/dns-relay/relay.ts:136-147 | a failure ends a query exactly when nobody permitted is left to ask |
| DnsRelay.FailClosedNeverAsksPlain | proxy/src/dns-relay/relay.ts:136-147 | failing closed, no query ever leaves in plain DNS |
| EndToEnd.GatewayWithin | proxy/src/server.ts:65-86 | within the whole system the controller runs as it does alone, fed by the relay |
| BypassProvenance.InUseWasAdded | proxy/src/network/gateway-controller.ts:185-272 | whatever is held, queued, carried or installed was registered earlier |
| BypassProvenance.InstalledIsVouched | proxy/src/dns-relay/relay.ts:114-123 | every such address comes from an A record of a NOERROR answer to a name matching the domains in force when it came |
| BypassProvenance.MarkHasCause | proxy/src/network/ruleset.ts:161-164 | a connection marked in the run had a LAN packet bound for an address then in the kernel's set, also over a table left by an earlier process |
| BypassProvenance.PassedMeansExcluded | proxy/src/network/ruleset.ts:155-228 | a LAN packet that the kernel's table is built to stop passes only if its connection was bound for an address then in the set, vouched for by an answer or left by an earlier process |
| BypassProvenance.InstalledIsCompiled | proxy/src/network/gateway-controller.ts:252-262 | from the first install on, the kernel's table is the one compiled from the input on record, for the site's LAN |
| ReplyAfterInstall.TicketsAlways | proxy/src/network/gateway-controller.ts:190-200 | a waiting request always waits for exactly the queued addition of its own addresses |
| ReplyAfterInstall.MatchedReplyIsInstalled | proxy/src/dns-relay/relay.ts:114-124 | in steady runs a matched answer is sent only with all its bypassable addresses in the kernel's set |
| ProxyConfig.BuildExplicitProxyConfig | proxy/src/explicit-proxy/config-builder.ts:27-61 | throws exactly on malformed input, for a reason that applies, otherwise returns the text |
| ProxyConfig.AccessExactly | proxy/src/explicit-proxy/config-builder.ts:48-60 | by the rules before the services a client passes exactly if its address is in a permitted block, and the services listen on the two ports |
| ProxyConfig.ConfigReadsBack | proxy/src/explicit-proxy/config-builder.ts:27-61 | read line by line the text is exactly the intended lines, its one permission exactly the given CIDRs |
| ExplicitProxy.ExplicitProxyController.ApplySettings | proxy/src/explicit-proxy/explicit-proxy-controller.ts:127-172 | performs the step on new settings |
| ExplicitProxy.ExplicitProxyController.StartChild | proxy/src/explicit-proxy/explicit-proxy-controller.ts:219-234 | starts a process from the file as written and arms the stability timer |
| ExplicitProxy.ExplicitProxyController.StopChild | proxy/src/explicit-proxy/explicit-proxy-controller.ts:240-251 | marks, signals and arms the kill timer for the running process, if any |
| ExplicitProxy.ExplicitProxyController.WriteConfig | proxy/src/explicit-proxy/explicit-proxy-controller.ts:149-164 | writes the file exactly when the configuration can be built and the file written |
| ExplicitProxy.ExplicitProxyController.ProcessEnds | proxy/src/explicit-proxy/explicit-proxy-controller.ts:227-228 | the end of a process together with its event |
| ExplicitProxy.ExplicitProxyController.HandleTermination | proxy/src/explicit-proxy/explicit-proxy-controller.ts:259-293 | performs the step on an end: ignore, restart at once, or count and schedule |
| ExplicitProxy.ExplicitProxyController.RestartTimerFires | proxy/src/explicit-proxy/explicit-proxy-controller.ts:288-291 | performs the restart step |
| ExplicitProxy.ExplicitProxyController.StableTimerFires | proxy/src/explicit-proxy/explicit-proxy-controller.ts:230-232 | forgets the streak |
| ExplicitProxy.ExplicitProxyController.KillTimerFires | proxy/src/explicit-proxy/explicit-proxy-controller.ts:247-249 | sends SIGKILL to the process it was armed for |
| ExplicitProxy.ExplicitProxyController.GetStatus | proxy/src/explicit-proxy/explicit-proxy-controller.ts:181-193 | returns the status function of the state |
| SupervisorRuns.InvAlways | proxy/src/explicit-proxy/explicit-proxy-controller.ts:127-293 | processes, timers, configuration and signals fit together at every moment of every run |
| SupervisorRuns.SupervisorIsSound | proxy/src/explicit-proxy/explicit-proxy-controller.ts:127-293 | never two processes; a pending restart excludes one and will start one; servable settings have a process or a restart; an unmarked process runs the current configuration; a marked one is being ended |
| SupervisorRuns.SignalsAreExpected | proxy/src/explicit-proxy/explicit-proxy-controller.ts:240-271 | the end of a signalled process is never counted as a crash |
| SupervisorRuns.LateEventsIgnored | proxy/src/explicit-proxy/explicit-proxy-controller.ts:259-260 | events of a process no longer watched change nothing, ever |
| SupervisorCounts.RepeatedSettingsDoNothing | proxy/src/explicit-proxy/explicit-proxy-controller.ts:127-137 | settings sent again leave everything as it is, a running process in particular |
| SupervisorCounts.NewSettingsAct | proxy/src/explicit-proxy/explicit-proxy-controller.ts:139-172 | all others tell a running process to end, or start one exactly if they can be served and written |
| SupervisorCounts.CountsAreCrashes | proxy/src/explicit-proxy/explicit-proxy-controller.ts:273-277 | both counters equal counts over the history, by the clock at each process's start and end |
| SupervisorCounts.SoonCrashesAddUp | proxy/src/explicit-proxy/explicit-proxy-controller.ts:273-277 | crashes that each come too soon, without a fresh start between them, add up |
| SupervisorCounts.CrashLoopExactly | proxy/src/explicit-proxy/explicit-proxy-controller.ts:181-193 | what is reported after any run, crashLoop exactly when the current streak has reached the threshold |
| SupervisorCounts.BackoffShape | proxy/src/explicit-proxy/explicit-proxy-controller.ts:278-281 | delays start at the base, double up to the maximum, and stay in range |
| SupervisorCounts.DelaysAlongStreak | proxy/src/explicit-proxy/explicit-proxy-controller.ts:273-292 | along a streak scheduled delays never shrink |
| CommandRunner.DetachableCommand.StdoutData | proxy/src/exec/command-runner.ts:161-183 | performs the step on output |
| CommandRunner.DetachableCommand.StderrData | proxy/src/exec/command-runner.ts:185-187 | collects error output |
| CommandRunner.DetachableCommand.Failed | proxy/src/exec/command-runner.ts:211-216 | performs the step on an error |
| CommandRunner.DetachableCommand.Exited | proxy/src/exec/command-runner.ts:189-209 | performs the step on exit |
| CommandRunner.DetachableCommand.TimedOut | proxy/src/exec/command-runner.ts:154-159 | performs the step on the timeout |
| CommandRunner.DetachableCommand.GraceOver | proxy/src/exec/command-runner.ts:196-201 | performs the step at the end of the grace period |
| CommandRunner.DetachableCommand.BackgroundTimedOut | proxy/src/exec/command-runner.ts:168-173 | performs the step on the background timeout |
| CommandRunner.ResolvesExactly | proxy/src/exec/command-runner.ts:126-218 | under every order of events the promise is pending until the first deciding event and resolved once, with what that event calls for |
| CommandRunner.NeverStuck | proxy/src/exec/command-runner.ts:154-202 | a pending promise has its timeout armed, and after an exit its grace period |
| CommandRunner.CallbackExactly | proxy/src/exec/command-runner.ts:166-209 | the callback fires at most once, never before the promise resolves, and with exactly the code and remark that the positions of exits and of the background timeout call for |
| CommandRunner.CallbackAfterPlainTimeout | proxy/src/exec/command-runner.ts:204-208 | the callback does not imply an early result |
| CommandRunner.KillsExactly | proxy/src/exec/command-runner.ts:154-173 | SIGTERM is sent exactly when the timeout decides, SIGKILL exactly when a detached process runs out of time, each at most once |
| CommandRunner.PlainCommand.Data | proxy/src/exec/command-runner.ts:61-66 | collects output of both kinds |
| CommandRunner.PlainCommand.Exited | proxy/src/exec/command-runner.ts:68-74 | performs the step on exit |
| CommandRunner.PlainCommand.Failed | proxy/src/exec/command-runner.ts:76-81 | performs the step on an error |
| CommandRunner.PlainCommand.GraceOver | proxy/src/exec/command-runner.ts:73-73 | performs the step at the end of the grace period |
| CommandRunner.PlainCommand.TimedOut | proxy/src/exec/command-runner.ts:54-59 | performs the step on the timeout |
| CommandRunner.PlainResolvesExactly | proxy/src/exec/command-runner.ts:33-83 | the plain command resolves at most once, as determined by the positions of its events, and is killed exactly when the timeout came first |
| NftListing.ParseTableListing | proxy/src/verification/nft-listing.ts:18-38 | the line loop returns the chains as specified line by line |
| NftListing.ListingReadsBack | proxy/src/verification/nft-listing.ts:18-38 | reading any listing gives back every chain with exactly its rules |
| RuleAudit.AuditGatewayRules | proxy/src/verification/rule-audit.ts:39-72 | reports exactly the findings that apply, and passes exactly when none does |
| RuleAudit.AuditKillSwitchRules | proxy/src/verification/rule-audit.ts:79-94 | the same for the kill switch |
| RuleAudit.PathFoundInPath | proxy/src/verification/rule-audit.ts:18-20 | the text of a permission is found in a generated rule only when the interfaces are the same |
| AuditAgreement.AuditsSeeExactly | proxy/src/verification/rule-audit.ts:39-94 | on any listing each audit passes exactly if the lines and texts it names are there, or not there |
| AuditAgreement.ReadBack | proxy/src/verification/nft-listing.ts:18-38 | listing a generated table and reading it back gives the text of each of its chains |
| AuditAgreement.GatewayAuditExactly | proxy/src/verification/rule-audit.ts:39-72 | on a generated table the gateway audit passes exactly when the gateway is on and the host forwards |
| AuditAgreement.KillSwitchAuditExactly | proxy/src/verification/rule-audit.ts:79-94 | the kill switch audit passes exactly when the kill switch is on or a tunnel, not the WAN interface, is present |
| AuditAgreement.AuditMatchesKernel | proxy/src/verification/rule-audit.ts:79-94 | it passes exactly when the kernel forwards no LAN-originated packet to the WAN interface |
| AuditAgreement.BypassMarkAuditExactly | proxy/src/verification/rule-audit.ts:136-139 | the marking rule is found exactly when bypass is configured |
| SettingsRequest.SanitizedCompilesAlike | proxy/src/dns-relay/dns-relay-controller.ts:43-45 | removing malformed domains does not change the matcher |
| SettingsRequest.BypassEnabledExactly | proxy/src/settings-request.ts:109-115 | the gateway keeps a bypass set exactly when the relay is enabled and can match some name |
| SettingsRequest.RedirectExactlyAsRequested | proxy/src/settings-request.ts:116-124 | the gateway is told to redirect exactly when asked, listening and reachable, except for exactly the well-formed excluded blocks |
| SettingsRequest.RejectedRunExactly | proxy/src/settings-request.ts:109-125 | with settings from requests and any tunnel names Linux allows from the monitor, the queue is rejected if and only if some rebuild called for a table and read an interface name outside the builder's pattern |
| SettingsRequest.RejectionIsReceivable | proxy/src/network/connection-monitor.ts:23-25 | the rejecting run consists of events the server can deliver |
| SettingsRequest.TunnelIsNotLan | proxy/src/network/connection-monitor.ts:23-25 | the tunnel is never the LAN interface |
| SettingsRequest.NameServerAccepted | proxy/src/server.ts:212-216 | the name server handed to the explicit proxy is always accepted |

## Left out

- An nft call that commits after its timeout was reported, or after later calls; a timed-out call that commits before it is reported is modelled.
- Expiry of set elements in the kernel and the refresh of elements added again: sets are membership only.
- Promise outcomes of the gateway controller (which result a caller's `await` yields), and `policy-routing.ts`, whose completion is a single event.
- The text of the nft script; `Nft.Command` stands for its lines. The text nft prints is modelled for auditing, except the redirecting rule and set bodies, which may be any well-formed lines.
- `auditDnsRedirectRules` and `parseSetElements`, which depend on how nft normalises addresses and on JSON.
- Packets the host itself sends do not occur in `EndToEnd`; they set no connection mark (`ForwardVerdict.OutputMarkExactly`).
- TestHelpers' query encoder appears only as the question of `DnsTheorems.BuildAnswer`; its labels are within 63 bytes.
- The query builders concatenate on values as the source does; only the replies written into a buffer are modelled on arrays.
- DnsTheorems.AnswerSurvivesExtension: nothing is claimed of PTR names, because a name inside a record may point beyond the cut.
- DnsTheorems.ErrorReplyReadsBack: says nothing of names that are redirected, that is, whose pointer or label length lies in the rewritten header and becomes another usable one; what they read then depends on bytes elsewhere and may by chance be the same name.
- DnsTheorems.TruncatedReplyReadsBack: the same.
- BypassProvenance.PassedMeansExcluded: connections that were already marked when the process started are not part of it.
- Reading the tunnel's name from the output of `ip route get`; the monitor is given any name Linux allows, or none.
- ControllerIdle.StatusExactly: a table of this name left by an earlier process, as long as this one has not installed its own, is not part of it.
- Lower-casing outside Latin-1, and characters beyond the basic plane (a source string counts them twice).
- Sockets, TLS, HTTP and idle timeouts; the relay's upstream calls, client identification and the interceptor's verdict are events.
- Spawning that throws synchronously, and a backoff base of zero with more than a thousand crashes.
- ExplicitProxy.ExplicitProxyController.HandleTermination: 'error' is taken to mean that the process is not running.
- Timers may fire at any time once armed; durations matter only where the source compares clock readings.
- Capability evaluation, settings validation beyond the conversion to gateway settings, and `client-id.ts`, `session-probe.ts` and `lan-subnet.ts`'s command execution.
