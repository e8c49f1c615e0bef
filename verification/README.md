# aoox: a verified model of its stateful core

This Dafny project models the parts of the aoox API where correctness rests on
state, interleaving or careful text handling, and proves what those parts
promise. Each source component has one module; objects whose methods update
fields are classes, and what their methods do is tied by `ensures` to
specification functions about which the main results are proved.

| file | what it models |
|---|---|
| `Masking.dfy`, `LogRedaction.dfy` | masking of secrets in stored and streamed log text |
| `UrlEncoding.dfy`, `StarForms.dfy` | `encodeURIComponent`; which secrets with `*` can be masked chunk by chunk |
| `LogsGateway.dfy` | the log gateway: subscribe, unsubscribe, stream end and disconnect, interleaved at every await |
| `DeploymentLogs.dfy` | a deployment's log text between runner, event bus, database row and clients |
| `MaskedLogs.dfy` | which secrets stay hidden over the whole life of a deployment log |
| `ContainerReplace.dfy` | replacing an application's container against a daemon whose calls may fail |
| `Names.dfy`, `TableOrder.dfy`, `InstanceRestore.dfy` | the order of tables by foreign keys, and restoring an instance backup |
| `HttpMonitors.dfy`, `MonitorHistory.dfy` | HTTP monitors, incidents and alerts over whole runs; the status and the times of checks read off what happened |
| `DnsRecords.dfy` | which DNS records aoox may change or delete |
| `Bytes.dfy`, `StreamDemux.dfy`, `Octal.dfy`, `Tar.dfy` | Docker's framed streams; ustar archives (POSIX.1-2017, pax utility, "ustar Interchange Format") |
| `Text.dfy`, `ImageReference.dfy` | the two readers of image references |
| `CertNames.dfy` | certificate name matching (section 6.4.3 of RFC 6125) and wildcard routing |
| `ShellQuote.dfy` | shell quoting (section 2.2 of the POSIX.1-2017 Shell Command Language) |
| `Options.dfy`, `Lists.dfy` | a value that may be missing; lists of texts as sets |

`dafny verify dfyconfig.toml` checks the whole project.

## How the source is read

- **Awaits.** A stretch of source between two awaits is one atomic step. A
  suspended call is data (`LogsGateway.Call`, `DeploymentLogs.Client`), and any
  order of resumptions is a run.
- **Failing calls.** A call to Docker or to the DNS provider is a method whose
  outcome is chosen arbitrarily; a call that reports an error may still have
  taken effect. Ghost fields (`Daemon.history`, `answers`, `starts`, `naps`,
  `errors`, `query`; `Provider.ours`, `writes`, `moments`, `listings`, `misses`,
  `errors`) record what happened, for the claims only.
- **Time.** `Daemon.clock` is the wall clock: `Sleep` moves it on by the time asked
  for or more, an inspection by any amount. Ticks and checks of monitors carry
  their time.
- **External functions.** `encodeURIComponent` and UTF-8 decoding are function
  parameters, applied per secret and per frame payload, where the code applies
  them. Where a result depends on the encoding, it is asked to work character by
  character, to leave the unreserved characters alone, and to turn any other into
  escapes (`UrlEncoding.UrlEncodes`, after section 19.2.6.4 of ECMA-262).
- **Masks.** `*` is a character that URL encoding leaves alone, so a mask can
  touch a secret that has one. A form is harmless when it is `*`, when it is the
  mask, or when it neither begins nor ends in `*` and has no three in a row
  (`Masking.Harmless`). `StarForms.HarmlessIff` says that these and no others can
  be masked chunk by chunk beside any harmless secrets; and a secret of the last
  kind (`Masking.Solid`) is hidden whatever the other secrets are.
- **Gateway.** A socket sends no message after its own disconnect;
  `LogsGateway.LateMessageLeaks` is the run that opens two subscriptions for one
  socket when it does. `LogsGateway.SocketMayReturnIff` says when a message could
  come and the invariant hold on: exactly when nothing of the socket is left.
- **Log text.** Saves of one row complete in the order they were issued, and
  clients subscribe after `start()`. `DeploymentLogs.EarlySubscriberExactIff` says
  when an earlier client, whose second read was answered before any text, is right
  all the same: exactly when nothing is emitted before that answer is handled.
- **Steps.** A step of a deployment releases the held text before its own line, so
  a secret whose tail reads like the start of a step line, such as one that ends
  in a line break, can come together there. `MaskedLogs.HiddenIffSafe` says exactly
  which secrets stay hidden in every log, for step lines of any wording, with the
  raw and the encoded form registered as the code registers them.
- **Integers and text.** Sizes, times and counters stay far below the bounds of
  JavaScript numbers and are unbounded here. Lower case is ASCII lower case, and
  strings are ordered and measured by character, not by UTF-16 unit.

## Where code and text disagree

- `DomainDnsService.cleanup` says it clears the bookkeeping
  (`domain-dns.service.ts:75-78`), but the code leaves `dnsRecords` as it is; the
  model follows the code. Repeating a cleanup is harmless since only tracked
  records are deleted and a missing one counts as removed.
- A blue/green swap whose own calls fail may leave the name with the old
  container stopped, or with the new one; `ContainerReplace.UntouchedSwapIff` says
  exactly when, and `ContainerReplace.ReplaceContainer` lists both as allowed holders.
- `parseImageRef` exists twice. `ImageReference.ReadersAgree` says exactly when
  the two agree: the names for hosts in lower case, the tags unless the
  reference has a digest and no tag, or an empty tag and no digest. Lower case is
  that of ASCII letters in the model and in the condition; a host with other
  capitals, which `toLowerCase` changes too, meets the condition and disagrees.
- The tar reader reads a size field that is full (12 digits, no terminator), so
  the round trip holds up to `8^12` bytes and not only `8^11`
  (`Tar.FirstFileRoundTrip`, both directions). A header that announces a
  negative size makes the reader take what follows for another header;
  `Tar.ChunkingInvisibleIff` says that this is the only way a chunking can be seen.
- A tick that finds an application stopped resets the monitor, but not one that
  shows "unknown" already (`http-monitor.service.ts:386-395`): failures counted
  before its first good check survive the stop. `MonitorHistory.Breaks` says so.
- `wildcardBase` keeps a final dot that `domainMatches` drops, so for hosts with
  a final dot or an empty label the wildcard asked for may not cover the host;
  `CertNames.WildcardCoversItsHost` gives the exact condition.

## Model

| member | source | states |
|---|---|---|
| Masking.ApplyIsImage | src/modules/application/log-redaction.ts:27-33 | masking keeps every prefix, suffix and stretch of the output that touches no mask as text that was in the input: the mask only ever takes text away |
| Masking.ApplyHides | src/modules/application/log-redaction.ts:27-33 | no solid registered form occurs in the masked text, whatever the other forms are |
| Masking.ApplySplits | src/modules/application/log-redaction.ts:27-33 | masking two pieces separately equals masking them joined when no form straddles the cut |
| Masking.SafeCutIff | src/modules/application/log-redaction.ts:78-112 | a cut is safe for every continuation exactly when no tail before it is held back and no complete form straddles it, the two tests the code makes |
| Masking.ChunkingInvisible | src/modules/application/log-redaction.ts:45-113 | for harmless forms and every chunking ended by one flush, the streamed output is the one-shot masking of the whole text |
| Masking.ChunkingsAgree | src/modules/application/log-redaction.ts:45-53 | two chunkings of one text release the same output |
| Masking.LateFormHidden | src/modules/application/log-redaction.ts:13-75 | a solid form registered in the middle of a stream never shows in what is released from then on up to the next flush, also across releases and with any other forms, then or later |
| Masking.FormMaskedWhole | src/modules/application/log-redaction.ts:3-33 | with the longest form first, a secret that contains another is masked as a whole: exactly one mask, unless the secret `*` comes behind it and masks the mask again |
| Masking.FormMaskedInText | src/modules/application/log-redaction.ts:3-33 | the same inside any text, where no other form overlaps its ends |
| Masking.StarFormsBreakStreaming | src/modules/application/log-redaction.ts:27-33 | a concrete input for which streaming and one-shot masking differ when a form ends in the mask character |
| StarForms.HarmlessIff | src/modules/application/log-redaction.ts:9-113 | a secret can be masked chunk by chunk beside any harmless secrets, with all their encoded forms, exactly when it is harmless itself |
| StarForms.TornStream | src/modules/application/log-redaction.ts:9-113 | for any other secret: one further secret and two chunks for which the stream releases something else than the masked text, with the secret in it |
| UrlEncoding.EncodeHarmless | src/modules/application/log-redaction.ts:16-18 | the encoded form of a harmless secret is harmless |
| LogRedaction.Redactor.Add | src/modules/application/log-redaction.ts:13-21 | after a secret is added the forms are exactly the raw and encoded forms of the known secrets, each once, none empty, longest first, and those of one length in the order in which they came |
| LogRedaction.Redactor.AddAll | src/modules/application/log-redaction.ts:23-25 | the same for several secrets |
| LogRedaction.Redactor.Mask | src/modules/application/log-redaction.ts:27-33 | the loop over the forms computes the masking that the results are about; the `includes` test changes nothing |
| LogRedaction.StreamRedactor.Push | src/modules/application/log-redaction.ts:59-68 | releases the masked longest safe head and holds the rest, also before any secret is known |
| LogRedaction.StreamRedactor.Flush | src/modules/application/log-redaction.ts:71-75 | releases the masked rest and holds nothing |
| LogRedaction.StreamRedactor.HeldLength | src/modules/application/log-redaction.ts:79-93 | the first search finds the first tail that may become a form; no safe cut lies above it |
| LogRedaction.StreamRedactor.SafeLength | src/modules/application/log-redaction.ts:78-112 | the fixpoint loop ends, and with the greatest safe cut: nothing is held back longer than needed |
| LogsGateway.NextInv | src/modules/application/logs.gateway.ts:112-245 | every step keeps: what is open is what the subscriptions hold, and every subscription belongs to the socket's current generation |
| LogsGateway.RunInv | src/modules/application/logs.gateway.ts:112-245 | so does every run, and disconnected sockets stay gone |
| LogsGateway.NothingLeaks | src/modules/application/logs.gateway.ts:112-245 | in every interleaving the open streams and listeners are exactly those in the subscriptions, at most one per socket |
| LogsGateway.NothingAfterDisconnect | src/modules/application/logs.gateway.ts:112-124 | after a disconnect nothing of the socket is open, then or ever; a subscribe in flight opens nothing |
| LogsGateway.UnsubscribeCloses | src/modules/application/logs.gateway.ts:233-245 | after an unsubscribe nothing of the socket is open until it subscribes again, whatever is still in flight |
| LogsGateway.StreamEndCloses | src/modules/application/logs.gateway.ts:220-226 | a stream that ends is closed for good, with its subscription; what the socket subscribed to since stays |
| LogsGateway.OneCurrentCall | src/modules/application/logs.gateway.ts:122-245 | of two subscribe calls in flight for one socket at least one has been overtaken, and whatever it is resumed with, it changes nothing that is open or subscribed |
| LogsGateway.CurrentSubscribeOpens | src/modules/application/logs.gateway.ts:139-187 | a call that was not overtaken subscribes its socket to something new and open exactly when the deployment it read is active, and touches no other socket |
| LogsGateway.CurrentContainerOpens | src/modules/application/logs.gateway.ts:207-231 | a container call that was not overtaken subscribes its socket to something new and open exactly when the service or container is found, and touches no other socket |
| LogsGateway.ContainerCallEnds | src/modules/application/logs.gateway.ts:189-231 | in every run, whatever else goes on, a container call whose socket sends nothing further is through its reads exactly when their answers are in, and ends subscribed to something new and open exactly when its service or else its container was found |
| LogsGateway.DeploymentCallEnds | src/modules/application/logs.gateway.ts:126-187 | the same for a deployment call: subscribed exactly when its row was active and the second read, where one is made, did not find it finished |
| LogsGateway.LateMessageLeaks | src/modules/application/logs.gateway.ts:112-124 | a run with a message after the disconnect in which one socket has two subscriptions open |
| LogsGateway.SocketMayReturnIff | src/modules/application/logs.gateway.ts:112-124 | a disconnected socket can be taken for a new one, with the invariant kept, exactly when no call of it is in flight and it never opened anything |
| LogsGateway.Gateway.UnsubscribeSocket | src/modules/application/logs.gateway.ts:233-245 | the handler is the modelled step: generation bumped, entry dropped, resource closed |
| LogsGateway.Gateway.HandleDisconnect | src/modules/application/logs.gateway.ts:112-116 | the handler is the modelled step |
| LogsGateway.Gateway.StartSubscribe | src/modules/application/logs.gateway.ts:126-138 | the stretch up to the first await, for both kinds of subscription |
| LogsGateway.Gateway.ResumeDeployment | src/modules/application/logs.gateway.ts:139-187 | each stretch after an await of a deployment subscription is the modelled step |
| LogsGateway.Gateway.ResumeContainer | src/modules/application/logs.gateway.ts:199-231 | each stretch after an await of a container subscription is the modelled step |
| LogsGateway.Gateway.OnEnd | src/modules/application/logs.gateway.ts:220-226 | a stream's end drops the subscription only when the stream is still the current one |
| DeploymentLogs.NextInv | src/modules/application/deployment-runner.service.ts:1163-1243 | every step keeps: live text is the row object's text plus the buffer, and watching clients show it |
| DeploymentLogs.RunInv | src/modules/application/deployment-runner.service.ts:1163-1243 | so does every run |
| DeploymentLogs.ClientsShowExactlyTheLog | src/modules/application/logs.gateway.ts:142-187 | at every moment each client that has its snapshot shows exactly the emitted text, nothing lost or repeated |
| DeploymentLogs.SubscriberIsServed | src/modules/application/logs.gateway.ts:142-187 | in every run a client that subscribes and whose row is read has its snapshot, the whole text, when that answer is handled, unless the deployment finished behind the read: then the row is read again |
| DeploymentLogs.RefetchIsServed | src/modules/application/logs.gateway.ts:164-187 | and when that second read is handled the client has the whole text |
| DeploymentLogs.KeepsItsView | src/modules/application/logs.gateway.ts:151-162 | a client that has its snapshot goes on showing the log until it leaves or subscribes again |
| DeploymentLogs.FinishedRowIsComplete | src/modules/application/deployment-runner.service.ts:1220-1243 | before the live copy is dropped the stored row holds the full text and a terminal status; a stored terminal status always comes with the full text |
| DeploymentLogs.RowCatchesUp | src/modules/application/deployment-runner.service.ts:1183-1241 | once a flush is saved the stored row holds all text emitted up to it, the status announced last, and the error message of the end |
| DeploymentLogs.SavesComplete | src/modules/application/deployment-runner.service.ts:1220-1226 | the saves under way go through one by one, and the latest is what the row holds then |
| DeploymentLogs.EarlySubscriberExactIff | src/modules/application/logs.gateway.ts:164-178 | a client whose two reads both precede the first text is right exactly when nothing is emitted before the second answer is handled |
| DeploymentLogs.EarlySubscriberMisses | src/modules/application/logs.gateway.ts:164-178 | such a run in which the client misses the first chunk |
| DeploymentLogs.DeploymentEvents.EmitLog | src/modules/application/deployment-events.service.ts:44-50 | the live text grows by the chunk, other deployments' texts stay |
| DeploymentLogs.DeploymentEvents.EmitStatus | src/modules/application/deployment-events.service.ts:52-57 | a terminal status drops the live text, an active one does not |
| DeploymentLogs.DeploymentLog.EmitChunk | src/modules/application/deployment-runner.service.ts:1173-1181 | buffer and live text get the same chunk; an empty one does nothing |
| DeploymentLogs.DeploymentLog.Append | src/modules/application/deployment-runner.service.ts:1164-1166 | what the stream masker releases is what is emitted |
| DeploymentLogs.DeploymentLog.Drain | src/modules/application/deployment-runner.service.ts:1169-1171 | the held text is emitted, masked, and nothing stays held |
| DeploymentLogs.DeploymentLog.SetStatus | src/modules/application/deployment-runner.service.ts:1183-1197 | the row object and the bus get the status |
| DeploymentLogs.DeploymentLog.FlushBuffer | src/modules/application/deployment-runner.service.ts:1220-1226 | a buffer with text, or any under force, moves into the row object, which is saved; else nothing happens |
| DeploymentLogs.DeploymentLog.Step | src/modules/application/deployment-runner.service.ts:1199-1204 | held text first, then the status, then the line, then a save |
| DeploymentLogs.DeploymentLog.Note | src/modules/application/deployment-runner.service.ts:1207-1210 | the line behind the held text, then a save, no status |
| DeploymentLogs.DeploymentLog.FinishUpToSave | src/modules/application/deployment-runner.service.ts:1228-1241 | all text is emitted and put in the row with the terminal status and the masked error message before anything is announced |
| DeploymentLogs.DeploymentLog.FinishAfterSave | src/modules/application/deployment-runner.service.ts:1242-1243 | then the terminal status is announced |
| MaskedLogs.SafeSecretHidden | src/modules/application/deployment-runner.service.ts:1163-1243 | over the whole life of a log, a solid secret no tail of which reads like the start of a step line shows nowhere in the emitted text, across releases and drains |
| MaskedLogs.OneLineIsSafe | src/modules/application/deployment-runner.service.ts:1199-1204 | every secret without a line break behind its first character has no such tail |
| MaskedLogs.TornSecretShows | src/modules/application/deployment-runner.service.ts:1199-1204 | a solid secret with such a tail shows in full in a log that knows it raw and encoded and is given its beginning, a step and an end |
| MaskedLogs.StarSecretShows | src/modules/application/deployment-runner.service.ts:1163-1204 | a secret that is not solid shows in full in a log that knows it and at most one other |
| MaskedLogs.HiddenIffSafe | src/modules/application/deployment-runner.service.ts:1163-1243 | a secret stays hidden in every log that knows it, raw and encoded, exactly when it is solid and has no such tail |
| MaskedLogs.LineBreakSecretShows | src/modules/application/deployment-runner.service.ts:1199-1204 | a concrete log that knows `abc%0A` and `abc` with a line break, and shows the latter |
| MaskedLogs.NowhereElse | src/modules/application/deployment-runner.service.ts:1220-1243 | in every run, what is neither emitted nor stored as an error message is in no column of a row or of a save under way, not on the bus, and at no client |
| MaskedLogs.SecretNowhere | src/modules/application/deployment-runner.service.ts:1159-1243 | so in every run whose text comes from a log that knows a solid secret without such a tail, and whose error messages are masked, the secret is nowhere at any moment |
| MaskedLogs.Perform | src/modules/application/deployment-runner.service.ts:1159-1243 | whatever is done with a log object until it finishes, it emits the text of the entries asked for, each masked with exactly the raw and encoded forms of the secrets registered by then, and its rows hold the beginning of it |
| MaskedLogs.Life | src/modules/application/deployment-runner.service.ts:1159-1243 | such a secret that a new log knows is neither in what the log emits nor in what it saves, error message included |
| ContainerReplace.WaitHealthy | src/modules/application/deployment-runner.service.ts:1049-1083 | polls every two seconds; true exactly when the last answer showed the container running and healthy; a container still booting at the last poll is given up only after 105 seconds, and none is asked after them |
| ContainerReplace.StartWithPortRetry | src/modules/docker/start-with-port-retry.ts:13-33 | starts again exactly after the error of a held port, up to four starts with a published port and one without, with pauses of 800, 1500 and 2500 ms; gives up only at another error, without a port, or after the fourth; changes only whether that container runs; success means it runs |
| ContainerReplace.Launch | src/modules/application/deployment-runner.service.ts:837-875 | adds at most containers of the given name and image, and on success the new one runs |
| ContainerReplace.BringUp | src/modules/application/deployment-runner.service.ts:837-885 | touches no container that was there; success means the new one runs and, with a health check, was seen healthy; without a failed call or a bad answer it gives up only after 105 seconds |
| ContainerReplace.RemoveFailed | src/modules/application/deployment-runner.service.ts:986-999 | removes only a container of the given name, and leaves the name free unless a cleanup call failed |
| ContainerReplace.Swap | src/modules/application/deployment-runner.service.ts:908-916 | stop and remove the old container, then rename the new one; the three outcomes determine what is left |
| ContainerReplace.UntouchedSwapIff | src/modules/application/deployment-runner.service.ts:908-916 | a swap leaves the name with the untouched old container or with nothing, except exactly when the old one was stopped but not removed, or the rename took effect, be it answered with an error |
| ContainerReplace.StoppedOldKeepsTheName | src/modules/application/deployment-runner.service.ts:908-916 | a concrete swap after which the name stays with a stopped container |
| ContainerReplace.RenamedNewKeepsTheName | src/modules/application/deployment-runner.service.ts:908-916 | a concrete swap that fails although the new image holds the name after it |
| ContainerReplace.ReplaceBeside | src/modules/application/deployment-runner.service.ts:828-921 | the blue/green branch: the old container is not touched before the new one was seen healthy; the holder of the name is as before, or gone, exactly when no swap was begun or its outcomes were the harmless ones |
| ContainerReplace.ReplaceInPlace | src/modules/application/deployment-runner.service.ts:832-921 | the plain branch: after a failure the name is held by the untouched old container, by a new one of the current image that runs and was seen healthy if checked, or by nothing; a removed container is given up only when there is no other image to go back to |
| ContainerReplace.ReplaceContainer | src/modules/application/deployment-runner.service.ts:652-921 | fails only when a call erred, the new container was seen to have failed, or 105 seconds passed; on success the new container holds the name, healthy if checked; blue/green never touches the old one early, and which outcomes leave its name as it was, or free, is exact; a failure leaves the name with something known good or nothing; other names are untouched; going back to the image before is tried once, exactly when it is reported, never where nothing was taken away, and a container taken away is given up only when there is no other image |
| ContainerReplace.RecoverPrevious | src/modules/application/deployment-runner.service.ts:1009-1046 | tries a replacement exactly when there is another current image, one and no more, and reports recovered only when it completed |
| ContainerReplace.StatusAfterFailure | src/modules/application/deployment-runner.service.ts:503-523 | answers what the lookup of the name and the inspection of what it found support: "running" exactly for an answer that says running and neither unhealthy nor starting |
| ContainerReplace.Deploy | src/modules/application/deployment-runner.service.ts:478-523 | a replacement is begun, and fails only when a call erred, a new container was seen to have failed, or 105 seconds passed; the status after a failed deployment is what the daemon says about the name at the end; "running" then means an allowed container, and a new one only if it was seen healthy where there is a health check |
| TableOrder.OrderIffAcyclic | src/modules/instance-backup/database-snapshot.ts:50-103 | an order exists exactly when the references have no cycle, and lists every table once, after all it references |
| TableOrder.OrderExcludesCycles | src/modules/instance-backup/database-snapshot.ts:50-56 | a legal order rules out every cycle |
| TableOrder.StuckMeansCycle | src/modules/instance-backup/database-snapshot.ts:94-96 | when no table is ready there is a cycle, which the lemma returns |
| TableOrder.OrderByRank | src/modules/instance-backup/database-snapshot.ts:84-102 | the order found is by the longest chain of references below a table, over other tables, and by name among tables of one rank |
| TableOrder.InputOrderIrrelevant | src/modules/instance-backup/database-snapshot.ts:57-103 | reordering tables or keys, or repeating a key, does not change the order |
| TableOrder.DepsMeaning | src/modules/instance-backup/database-snapshot.ts:67-83 | a table depends on exactly the other tables that metadata or live keys name, with quotes and schema stripped |
| TableOrder.PrintedNameRead | src/modules/instance-backup/database-snapshot.ts:46-49 | however the database prints a table, with its schema or quotes or without, its name is read back, except exactly for a line break between quotes |
| TableOrder.ReadSchema | src/modules/instance-backup/database-snapshot.ts:67-83 | the loops build that map of dependencies |
| TableOrder.ReadyTables | src/modules/instance-backup/database-snapshot.ts:87-93 | the ready tables, sorted, whatever order the map yields them in |
| TableOrder.ComputeOrder | src/modules/instance-backup/database-snapshot.ts:57-103 | the loop ends since `done` grows, and returns the specified order or the cycle error |
| Names.IncreasingUnique | src/modules/instance-backup/database-snapshot.ts:93 | a set of names has only one sorted listing |
| Names.BeforeMeaning | src/modules/instance-backup/database-snapshot.ts:93 | names compare by the character at their first difference, and a name comes before its continuations |
| InstanceRestore.RestorableOrdered | src/modules/instance-backup/instance-backup.service.ts:261 | leaving out the excluded tables keeps parents before children |
| InstanceRestore.ByNameMeaning | src/modules/instance-backup/instance-backup.service.ts:260-288 | looking a table up in the snapshot finds the rows of its last entry of that name, or none; only given names are there |
| InstanceRestore.MergeMeaning | src/modules/instance-backup/instance-backup.service.ts:290-295 | inserting with "do nothing" on conflict adds exactly the rows whose ids are missing |
| InstanceRestore.EmptyAll | src/modules/instance-backup/instance-backup.service.ts:277-279 | in reverse order no table is emptied while a table that references it has rows |
| InstanceRestore.FillTable | src/modules/instance-backup/instance-backup.service.ts:281-287 | the batches insert exactly the rows, in order |
| InstanceRestore.FillAll | src/modules/instance-backup/instance-backup.service.ts:280-289 | no table is filled before those it references are complete; the count is the number of rows |
| InstanceRestore.RunTransaction | src/modules/instance-backup/instance-backup.service.ts:276-296 | afterwards every table to restore holds its rows, and the backup list also the local rows whose ids are not in it; the count is that of the rows inserted |
| InstanceRestore.CheckSnapshot | src/modules/instance-backup/instance-backup.service.ts:250-267 | the checks pass exactly for references without a cycle, the same migrations and known tables, and yield all tables but the migrations, parents first |
| InstanceRestore.InstanceBackups.ApplySnapshot | src/modules/instance-backup/instance-backup.service.ts:249-296 | rejected exactly for references with a cycle, other migrations or unknown tables; aborted only when a statement failed; nothing changes then; else each table but the migrations holds the rows of the last entry of its name in the snapshot, or none, the backup list also the local backups missing there, and the counts are those of these tables and rows |
| InstanceRestore.InstanceBackups.Restore | src/modules/instance-backup/instance-backup.service.ts:238-246 | one restore at a time, and the flag is down again afterwards |
| HttpMonitors.NextInv | src/modules/http-monitor/http-monitor.service.ts:231-563 | every save, tick and check keeps the invariant of status, streak, checks, incidents and messages |
| HttpMonitors.RunInv | src/modules/http-monitor/http-monitor.service.ts:231-563 | so does every run |
| HttpMonitors.OneOpenIncidentWhileDown | src/modules/http-monitor/http-monitor.service.ts:504-549 | exactly one open incident while down, none otherwise |
| HttpMonitors.IncidentsStartWithTheStreak | src/modules/http-monitor/http-monitor.service.ts:512-527 | that many latest checks failed, and each incident starts at the first failed check of the streak that opened it |
| HttpMonitors.OpeningCheck | src/modules/http-monitor/http-monitor.service.ts:512-527 | the check that opens an incident dates it from the first of the counted failures |
| HttpMonitors.RecoveryAnswersDown | src/modules/http-monitor/monitor-state.ts:24-45 | only reminders lie between a recovery message and the down message it answers, no reset and no other outage |
| HttpMonitors.AlertsKeepTheirDistance | src/modules/http-monitor/monitor-state.ts:59-62 | two messages about one outage are at least six hours apart |
| HttpMonitors.StreakDecides | src/modules/http-monitor/monitor-state.ts:18-45 | a streak of failures makes a monitor down exactly when, with those counted before, it reaches the threshold; going down is announced once |
| HttpMonitors.HealthyCheckEnds | src/modules/http-monitor/monitor-state.ts:18-45 | one healthy check after any streak brings it up with no failures counted, and is announced exactly when the monitor was down |
| HttpMonitors.HttpMonitorService.SaveMonitor | src/modules/http-monitor/http-monitor.service.ts:231-263 | the service's save is the modelled one, for that monitor only |
| HttpMonitors.HttpMonitorService.CheckMonitor | src/modules/http-monitor/http-monitor.service.ts:430-501 | a check is the modelled one; a monitor in flight is left alone; the mark is gone afterwards |
| HttpMonitors.HttpMonitorService.Prepare | src/modules/http-monitor/http-monitor.service.ts:384-407 | a monitor is due exactly when it is enabled, its application runs and is not being deployed, no check of it is in flight, and it was never checked or its interval, less ten seconds, has passed; else the tick does to it what is modelled |
| HttpMonitors.HttpMonitorService.RunDueMonitors | src/modules/http-monitor/http-monitor.service.ts:358-427 | a tick applies the modelled step to every monitor once, leaves those in flight alone, and returns the number of monitors that are due |
| MonitorHistory.StatusByHistory | src/modules/http-monitor/monitor-state.ts:18-45 | read off the history of probes, deploys and stops alone: a monitor is down exactly when as many bad probes as the threshold asks for came with nothing to end the streak between them, and no good probe or stop since; it is up exactly when it is not down and a probe was good since the last stop; what is stored is what was probed |
| MonitorHistory.NeverTooSoon | src/modules/http-monitor/monitor-state.ts:48-57 | in every run of ticks two checks are never closer than the interval less ten seconds |
| MonitorHistory.NeverTooLate | src/modules/http-monitor/monitor-state.ts:48-57 | with ticks at most a minute apart, of an application that just runs, the next check comes within the interval and fifty seconds |
| MonitorHistory.FirstTickChecks | src/modules/http-monitor/monitor-state.ts:48-57 | a monitor that was never checked is checked by the first such tick |
| MonitorHistory.ReminderIff | src/modules/http-monitor/monitor-state.ts:59-62 | while an outage goes on a failed check sends a reminder exactly when six hours or more have passed since the last message |
| MonitorHistory.RecoveryEndsIncident | src/modules/http-monitor/http-monitor.service.ts:504-549 | a healthy check ends the open incident at its own time and leaves the ended ones alone |
| MonitorHistory.StopForgets | src/modules/http-monitor/http-monitor.service.ts:384-427 | a tick that finds the application stopped resets the monitor and ends its incident, without a message |
| MonitorHistory.DownSince | src/modules/http-monitor/http-monitor.service.ts:504-549 | a monitor goes down with one new open incident, one message, and the start of that incident as the time it shows |
| MonitorHistory.SavedSettings | src/modules/http-monitor/http-monitor.service.ts:231-263 | a save changes the settings; switching on starts afresh; switching off ends what is open |
| DnsRecords.DropStale | src/modules/dns-provider/dns-records.ts:57-63 | deletes only own records of the other address family that are still listed; when it succeeds all of them are gone from the zone |
| DnsRecords.Settle | src/modules/dns-provider/dns-records.ts:65-124 | a warning exactly when no own record is listed and an alias, or without overwrite another address, stands in the way; tracked is the first own record, or nothing where a foreign one fits, or the one taken over, or a new one; what is written was shown as wanted, proxying included |
| DnsRecords.SyncHostRecord | src/modules/dns-provider/dns-records.ts:32-135 | only own records, or one under overwrite, are changed; unless it fails, no zone was found, or exactly the records of that name in the zone were listed, the listing decides as above, and no own record of the other family that was listed is left; ok means the zone showed the record asked for; a failure has a failed call or a record gone meanwhile for its reason; what was created or changed is tracked unless it failed |
| DnsRecords.RemoveManagedRecords | src/modules/dns-provider/dns-records.ts:138-156 | one delete per given record in its own zone, in order, nothing else; every record is gone afterwards or reported as an error |
| DnsRecords.DomainDns.SyncRow | src/modules/application/domain-dns.service.ts:29-73 | what a row is to get: without a usable connection nothing is asked and the sync fails; without an address there is a warning; else the zone and its listing decide |
| DnsRecords.DomainDns.Sync | src/modules/application/domain-dns.service.ts:29-73 | the same for a domain row, which gets the status and the records: a record that is not its own is changed only under this call's overwrite; a failure, also of the connection, leaves the tracked records; without an address there is a warning and nothing else |
| DnsRecords.DomainDns.Cleanup | src/modules/application/domain-dns.service.ts:79-95 | deletes every tracked record, in order, and nothing else, also after an error; without an error all are gone; without a usable connection nothing is asked and an error is reported; an error has a failed call or connection for its reason |
| DnsRecords.DomainDns.Live | src/modules/application/domain-dns.service.ts:29-95 | over any sequence of syncs, cleanups and edits every operation accounts for itself: what the zone, its listing and the rows were between its beginning and its end is what its answer says, the rows change as reported, tracked records are gone after a cleanup without errors, and each write is one the operation is entitled to: a record that is not aoox's own is changed only by a sync that was asked to overwrite, and deleted by none |
| StreamDemux.DemuxContinues | src/modules/docker/docker-engine.client.ts:1421-1435 | output and rest of a joined buffer are those of its first part continued with the second |
| StreamDemux.ChunkingInvisible | src/modules/docker/docker-engine.client.ts:1421-1435 | any chunking gives the output and the pending bytes of one push of everything |
| StreamDemux.WholeFrames | src/modules/docker/docker-engine.client.ts:1421-1447 | on whole frames both readers give the decoded payloads in order and nothing is left over |
| StreamDemux.StreamDemuxer.Push | src/modules/docker/docker-engine.client.ts:1424-1434 | the loop outputs the text of the whole frames and keeps the rest |
| StreamDemux.Demultiplex | src/modules/docker/docker-engine.client.ts:1438-1447 | the index loop gives the text of the whole frames and then of a cut-off last payload |
| Octal.ValueOfPadded | src/modules/application/nixpacks-builder.service.ts:195-208 | padded octal digits read back as the number |
| Octal.PlaceValue | src/modules/application/nixpacks-builder.service.ts:195-208 | octal digits count eight times the next one |
| Octal.DigitCount | src/modules/application/nixpacks-builder.service.ts:213-215 | a number has at most k octal digits exactly when it is below 8^k |
| Tar.WriteEntry | src/modules/application/nixpacks-builder.service.ts:182-218 | the fields written in place and the summing loop give the specified entry |
| Tar.WriteArchive | src/modules/application/nixpacks-builder.service.ts:173-180 | the entries in order and 1024 zero bytes |
| Tar.SumAdds | src/modules/application/nixpacks-builder.service.ts:211-212 | the checksum adds up the bytes: nothing for none, the byte for one, and the sum of both for two parts |
| Tar.ChecksumRight | src/modules/application/nixpacks-builder.service.ts:209-215 | the checksum fits six octal digits and reads back as the header's sum with its own field blank |
| Tar.EntryBlocks | src/modules/application/nixpacks-builder.service.ts:216-217 | every entry fills whole 512-byte blocks |
| Tar.HeaderLayout | src/modules/application/nixpacks-builder.service.ts:182-215 | name, mode, size, time, type and magic lie where the format has them, each number in octal digits with its terminator |
| Tar.SingleFileUntar.Push | src/modules/docker/docker-engine.client.ts:1400-1417 | a push is one step of the specified reader |
| Tar.ChunkingInvisible | src/modules/docker/docker-engine.client.ts:1396-1418 | however the stream is cut, the reader yields the first file's bytes |
| Tar.ChunkingInvisibleIff | src/modules/docker/docker-engine.client.ts:1405-1411 | no chunking can be seen exactly when the header does not announce a negative size |
| Tar.SizeRead | src/modules/docker/docker-engine.client.ts:1405-1409 | a written size is read back exactly below 8^12 and as something smaller above |
| Tar.SizeFieldForms | src/modules/docker/docker-engine.client.ts:1405-1409 | size fields of other writers: digits behind blanks and a sign, up to anything that is no digit |
| Tar.FirstFileRoundTrip | src/modules/docker/docker-engine.client.ts:1392-1418 | for every archive and chunking the reader returns exactly the first file if and only if its size is below 8^12 |
| Tar.ArchiveLists | src/modules/application/nixpacks-builder.service.ts:173-218 | a reader of whole archives finds every file again, in order, under the first hundred bytes of its name |
| Tar.ArchiveEnds | src/modules/application/nixpacks-builder.service.ts:173-180 | an archive has its headers and contents, each filled up to whole blocks, then exactly 1024 zeros |
| Tar.EmptyArchive | src/modules/application/nixpacks-builder.service.ts:173-180 | an archive of no files yields nothing |
| Text.JoinSplit | src/modules/docker-manager/image-protection.ts:56-64 | splitting at a separator and joining again gives the text back |
| Text.SplitParts | src/modules/docker-manager/image-protection.ts:56-64 | the parts of a split are what lies between the separators: none holds one |
| Text.TrimTakesBlanks | src/modules/docker-manager/image-protection.ts:39-50 | trimming takes blanks from both ends and nothing else |
| ImageReference.ReadSpelling | src/modules/application/image-reference.ts:20-51 | reading a spelling gives back the parts that were spelled |
| ImageReference.SpellReading | src/modules/application/image-reference.ts:20-51 | every text is the spelling of the parts read from it |
| ImageReference.CutsCommute | src/modules/application/image-reference.ts:28-48 | cutting the host first, as one reader does, or the tag first, as the other does, gives the same parts |
| ImageReference.ParseImageRef | src/modules/application/image-reference.ts:20-51 | the reader's steps give the parts with Docker Hub and `latest` filled in |
| ImageReference.ClientReads | src/modules/application/image-reference.ts:20-51 | any written reference: the registry of the hub for no host or its aliases, `library/` before official images, `latest` for no tag, all else as written |
| ImageReference.WithTag | src/modules/application/image-reference.ts:54-61 | the result spells the same parts with the new tag and no digest |
| ImageReference.RetaggedText | src/modules/application/image-reference.ts:53-61 | retagging a written reference keeps its text up to the tag, then the new tag and nothing else |
| ImageReference.ParseCanonical | src/modules/docker-manager/image-protection.ts:39-65 | the other reader's steps give the same parts under canonical names, or nothing for a text that names no image |
| ImageReference.NamesIff | src/modules/docker-manager/image-protection.ts:40-57 | a text names an image exactly when it holds no blank and something stands before its tag and digest |
| ImageReference.GuardReads | src/modules/docker-manager/image-protection.ts:39-65 | the same for the other reader: `docker.io`, host and digest in lower case, `latest` only without tag and digest |
| ImageReference.RetagKeepsTheRest | src/modules/application/image-reference.ts:53-61 | changing the tag keeps registry and repository, sets the tag and drops the digest, for exactly the tags without separators and trailing white space |
| ImageReference.NamesAgree | src/modules/docker-manager/image-protection.ts:56-64 | the two readers name the same repository exactly when the host is in lower case |
| ImageReference.ReadersAgree | src/modules/docker-manager/image-protection.ts:39-65 | exactly when names and tags of the two readers agree; digests always do up to case |
| ImageReference.ReadWrittenOut | src/modules/application/image-reference.ts:9-51 | a reference written out with every default reads back unchanged |
| CertNames.SuffixIsLabels | src/modules/certificate/domain-matches.ts:14-21 | the suffix test on text is wildcard matching on label lists |
| CertNames.CanonForgets | src/modules/certificate/domain-matches.ts:8-13 | blanks around a name, its case and one final dot make no difference |
| CertNames.DomainMatchesByLabels | src/modules/certificate/domain-matches.ts:8-25 | a host is covered exactly when some name equals it or is a wildcard with one nonempty leftmost label, over a base of two labels |
| CertNames.WildcardCoversItsHost | src/modules/application/cert-mode.ts:10-27 | the exact condition under which the wildcard asked for a host covers that host |
| CertNames.WildcardIsParent | src/modules/application/cert-mode.ts:10-27 | a wildcard is asked for exactly when the host has a parent of two labels or more, and then for that parent |
| CertNames.PlainHostIsCovered | src/modules/application/cert-mode.ts:6-27 | it does for every host of three or more nonempty labels |
| ShellQuote.QuotedValueIsText | src/modules/application/nixpacks-builder.service.ts:159-162 | wherever it stands outside quotes, a quoted value adds exactly its text to the word being read, and what follows is read as if it were not there |
| ShellQuote.OneWord | src/modules/application/nixpacks-builder.service.ts:159-162 | a quoted value alone is read as exactly one word equal to it |
| ShellQuote.LineRoundTrip | src/modules/application/nixpacks-builder.service.ts:56-57 | a line of plain words and quoted values is read back as those words, in order |
| ShellQuote.EnvFlagsRoundTrip | src/modules/application/nixpacks-builder.service.ts:52-54 | any build arguments reach the helper as one `--env` and one `name=value` word each |

## Left out

- HTTP, SSH and socket transport, the Docker Engine endpoints and the DNS provider's API: only their outcomes are modelled.
- Masking.ChunkingInvisible: asks for harmless forms; every other form tears beside one further secret (`StarForms.HarmlessIff`), but beside which lists of harmful forms nothing can tear is not characterised.
- Masking.FormMaskedInText: says nothing about forms that overlap the secret's ends.
- LogsGateway.NothingAfterDisconnect: assumes no message of a socket is handled after its disconnect; ticket checks, rooms and the text sent to clients are not part of that model.
- DeploymentLogs.ClientsShowExactlyTheLog: covers clients that subscribe after `start()`, saves that complete in order, and no restart of the API in between.
- DeploymentLogs.DeploymentLog.FlushBuffer: the one-second timer of `progress` is any moment; row columns other than text, status and error message are left out.
- ContainerReplace.ReplaceContainer: container mode of the application itself; previews (`override`), swarm services, environment, labels, mounts and notes that cannot fail a deployment are left out. Its two branches are two methods. The claim about failures asks that cleanup calls and log writes succeeded, and names two more holders that a half-done swap can leave: the old container whose removal errored, and the new one, seen healthy, whose rename errored; the exact condition is given for blue/green replacements, not for those in place.
- ContainerReplace.Deploy: persisting the outcome, digest baselines and notes are left out, and which lines are logged.
- InstanceRestore.InstanceBackups.ApplySnapshot: decompression, JSON and the structural check come before it; the warnings after the transaction are left out. Migration lists are compared as multisets, which differs from joining the sorted lists only for names with line breaks. Foreign keys are conditions of the modelled transaction's statements, proved at each call; a table's references to itself are ignored, as the order ignores them.
- TableOrder.ComputeOrder: entities have different table names.
- HttpMonitors.HttpMonitorService.RunDueMonitors: checks of one tick run one after another, and a check already in flight does not end during the tick, so configuration changes during a check are left out; so are manual checks of a disabled monitor, pruning of old checks, and failing row writes.
- HttpMonitors.RunInv: checks happen at strictly increasing times.
- DnsRecords.SyncHostRecord: a created record whose answer is lost is not tracked, as in the source; the provider's page limit of a listing is left out, and records keep their zone, type and name while others edit them.
- MaskedLogs.HiddenIffSafe: the wording of step lines is taken to be arbitrary.
- MaskedLogs.SecretNowhere: that the text of a run comes from a log is a condition; `MaskedLogs.Perform` says what text a log object emits.
- DnsRecords.DomainDns.Sync: looking up the expected address is a parameter; messages are left out.
- Tar.WriteEntry: the name is given as bytes, so a name cut inside a UTF-8 character is not modelled; the clock is a parameter.
- StreamDemux.WholeFrames: a payload is decoded on its own, as in the source, so a character split over two frames is not joined.
- ImageReference.NamesAgree: says nothing about capitals outside ASCII.
- ImageReference.ParseCanonical: `imageMatchesRef` and `protectionReason`, two searches with it, are left out.
- ShellQuote.LineRoundTrip: the NUL character, which no shell word can hold, is an ordinary character here; expansions are not modelled, an unquoted special character only means that the reader gives no words.
- Swarm, builders, compose scripts, notifications, audit, authentication, encryption and the Nest modules: plumbing, or decided by external tools.
