# open-ssm-agent: verified models

A Dafny model of the state machines that open-ssm-agent's correctness rests on, with proofs
about whole runs of them. `dafny verify dfyconfig.toml` checks everything.

- **NetBox reconciliation** (`netbox_model`, `netbox_ensure`, `netbox_runs`, `netbox_theorems`,
  `netbox_exact`, `netbox_converge`, `netbox_attempts`, `netbox_report`, `netbox`, `netbox_hash`, `netbox_sink`). The nested loops
  of `reconcile` are methods over a mutable device, in which every write may fail before or after
  taking effect. They are proved against `Run`, a fold over the list of work items that the
  snapshot and the report fix in advance; an attempt that aborts anywhere has left the device as
  `Run` of a prefix. What a completed run leaves is also said of the rows and the report alone,
  texts and prefix lengths included. On top of it: `upsert` with its retry loop and content-hash cache.
- **Job execution** (`jobstore`, `jobstore_files`, `dispatch`, `dispatch_once`,
  `dispatch_replies`, `dispatch_progress`). Concurrent deliveries, redeliveries, failing system
  calls, killed processes and power losses as a transition system over volatile state (tasks,
  claims) and a disk on which a rename is durable only after the directory fsync. A killed process
  loses what is volatile; a power loss also whatever of the disk was not synced.
- **Sealed channel** (`framing`, `handshake`, `channel`, `sessions`, `shell_streams`, `nonces`).
  Byte framings are concrete. X25519 (section 6.1 of RFC 7748), HKDF (sections 2.2 and 2.3 of RFC 5869), AES-GCM and
  signatures are abstract functions; what is assumed of them is a hypothesis of the lemma that uses
  it, and hash or key-derivation claims are stated as "equal, or here are the two inputs that
  collide". Nonce uniqueness is the requirement of sections 8 and 8.2.1 of NIST SP 800-38D.
- **Bridge** (`bridge_world`, `bridge`, `bridge_theorems`). The coordinator's event loop: sessions,
  pending jobs and shells, with the envelopes it seals. Every job remembers, as history, what its
  operator got and from which session; the invariant over that history is kept by every handler.
- **Session epochs** (`epochs`, `admission`), **reorder buffer** (`reorder`), **audit chain**
  (`audit`, `audit_log`), **join tokens** (`tokens`), **exec pump** (`exec`), **authorization**
  (`allowlist`, `policy`, `service`, `fanout`).

A transition system is a total function from state and event to state: an event that is not
enabled changes nothing, so a theorem about every sequence of events covers every interleaving.
Beside each safety theorem stands a lemma that the machine does its work when nothing fails
(`UndisturbedJob`, `UndisturbedCall`, `UndisturbedAppend`, `UndisturbedHost`).

Five properties one might expect of the code fail at a boundary. Each has the exact condition or a
concrete instance beside it:

- reconciling is exact if and only if stored rows and report satisfy the two conditions in
  `NetboxExact.ExactIff`; repeating a report is silent if and only if no address is wanted on two
  interfaces (`NetboxConverge.QuietIff`);
- the dedup cache answers `Unchanged` for the cached report right after an upsert that failed
  (`NetboxSink.CachedAfterError`), although that may have left the device showing something else
  (`NetboxSink.StaleAfterError`); and while reports without a NUL in any field have different hash
  inputs, every report with one shares its hash input with another report
  (`NetboxHash.PreimageInjective`, `NetboxHash.PreimageCollides`);
- the reorder buffer delivers the item numbered `u64::MAX` again each time it is offered
  (`Reorder.TwiceAtTheEnd`); deliveries are the first items, and do not depend on the order of
  arrival, as long as that number arrives at most once (`Reorder.RunDeliversFirst`,
  `Reorder.SameDeliveries`);
- a hello whose ServerHello cannot be published replaces the session and purges nothing: exactly
  the host's open jobs are left with a session that is no longer current
  (`Bridge.Bridge.ClientHello`). Such a job is cut off from its agent (`BridgeTheorems.CutOff`,
  `BridgeTheorems.LostResults`). It can get results of two sessions only if the ServerHello took
  effect although publishing it reported an error (`BridgeTheorems.OnlyUnconfirmed`,
  `BridgeTheorems.CrossSession`);
- the two token stores differ exactly between the whole seconds one of them counts and the instant
  a token expires (`Tokens.SubSecond`, `Tokens.LastFraction`).

## Model

| member | source | states |
|---|---|---|
| `NetboxTheorems.EveryStepIsSafe` | osa-coordinator/src/netbox.rs:239-288 | at every step of every run, aborted anywhere, primaries name live IPs and every IP sits on a live interface; no write deletes a current primary or an interface that holds an IP; true of every report, repetitions included |
| `NetboxExact.ExactIff` | osa-coordinator/src/netbox.rs:209-290 | a successful run leaves exactly the observed names, each with exactly its parsable addresses and one row each, if and only if each observed name has one stored row (or none and is observed once) and an address wanted twice is on one name if stored, on different names if not |
| `NetboxConverge.PrimariesAndIds` | osa-coordinator/src/netbox.rs:241-274 | after success the primaries are the rows of the first observed IPv4 and IPv6, the stamp is the host, and stored interfaces and addresses that are still observed keep their row ids |
| `NetboxConverge.CidrFamily` | osa-coordinator/src/netbox.rs:413-428 | the CIDR of a parsable address is IPv4 exactly if the address is |
| `NetboxReport.ShowsReportIff` | osa-coordinator/src/netbox.rs:209-290 | a completed run leaves exactly the observed names, one row each, for every address that parses as IPv4 a row of that address and "/32" on its interface, for every one that parses as IPv6 one with "/128", no other row and none twice, if and only if each observed name has one stored row (or none and is observed once) and an address reported twice is on one name if stored, on different names if not |
| `NetboxReport.ShowsPrimaries` | osa-coordinator/src/netbox.rs:250-274 | each primary is the row of the first reported address of its family, with its prefix length, or absent if there is none; the stamp is the host |
| `NetboxReport.SettledShows` | osa-coordinator/src/netbox.rs:413-419 | a settled device shows the report in the same terms |
| `NetboxConverge.QuietIff` | osa-coordinator/src/netbox.rs:239-288 | on an exact device a run writes nothing but the finalize, if and only if no address is wanted on two interfaces |
| `NetboxConverge.SecondRunIsIdentity` | osa-coordinator/src/netbox.rs:209-290 | the second run of the same report leaves the device as it is and creates, moves and deletes nothing |
| `NetboxAttempts.Converges` | osa-coordinator/src/netbox.rs:209-290 | any number of attempts aborted at any write, whether or not it took effect, then one success: the device shows exactly the report, as after one clean run |
| `NetboxAttempts.ChainKeeps` | osa-coordinator/src/netbox.rs:369-384 | aborted attempts keep the device sound and never give an observed name a second row |
| `Netbox.NetboxDevices.MatchBySerial` | osa-coordinator/src/netbox.rs:96-132 | no match, the single match with its stamp, or the number of matches |
| `Netbox.NetboxDevices.Perform` | osa-coordinator/src/netbox.rs:137-157 | a write fails without effect, takes effect, or takes effect and reports failure |
| `Netbox.IndexByName` | osa-coordinator/src/netbox.rs:216-217 | the name index has exactly the stored names, each mapped to the last row listed with it |
| `Netbox.IndexByAddress` | osa-coordinator/src/netbox.rs:226-233 | the address index has exactly the stored addresses, each mapped to the first row listed with it and that row's interface |
| `Netbox.EnsurePhase` | osa-coordinator/src/netbox.rs:239-268 | phases 1 and 2 as nested loops: the device, the kept ids and both primaries are those of the run so far |
| `Netbox.DropAllAddresses` | osa-coordinator/src/netbox.rs:276-283 | the IP loop of phase 4 follows the run |
| `Netbox.DropInterfaces` | osa-coordinator/src/netbox.rs:284-288 | the interface loop of phase 4 follows the run |
| `Netbox.Reconcile` | osa-coordinator/src/netbox.rs:209-290 | whatever fails, only this device changes, and it is left at a prefix of a run over it; an error is reported exactly if a call failed, and without one the run is complete |
| `NetboxHash.ContentBuffer` | osa-coordinator/src/netbox.rs:395-409 | the buffer that is hashed is the specified record encoding |
| `NetboxHash.PreimageLayout` | osa-coordinator/src/netbox.rs:396-407 | the hashed bytes of a report of one interface, byte for byte |
| `NetboxHash.PreimageInjective` | osa-coordinator/src/netbox.rs:395-409 | reports of one host with equal hash inputs are equal, serial included, if no interface name or address contains a NUL; the serial may contain anything |
| `NetboxHash.PreimageCollides` | osa-coordinator/src/netbox.rs:402-407 | every report with a NUL in an interface name or address has the same hash input as a different report |
| `NetboxSink.NetboxInventorySink.MatchAndReconcile` | osa-coordinator/src/netbox.rs:295-334 | writes only the single device with the serial, and only if it is unclaimed or the host's own |
| `NetboxSink.NetboxInventorySink.Retry` | osa-coordinator/src/netbox.rs:369-384 | at most four attempts, each but the last with one failing call that was a backend or transport error; any other error ends it at once, and such a one is returned only after the fourth; the host's own stamp from an aborted attempt never reads as a collision |
| `NetboxSink.NetboxInventorySink.Upsert` | osa-coordinator/src/netbox.rs:339-389 | which answer means what about the devices before and after; no other device is touched; a success over a distinct report settles the device; an error keeps the cache entry |
| `NetboxSink.NetboxInventorySink.MarkSynced` | osa-coordinator/src/netbox.rs:189-194 | the cache entry is replaced on success only, and every entry stays the hash of its snapshot |
| `NetboxSink.UsableSerialIs` | osa-coordinator/src/netbox.rs:348-355 | a report is skipped exactly if its serial is absent or blank; otherwise the serial is what is left without the white space at both ends |
| `NetboxSink.OthersStillShow` | osa-coordinator/src/netbox.rs:304-317 | an upsert for one host leaves every other host's settled device as it was |
| `NetboxSink.UnchangedIsIdentity` | osa-coordinator/src/netbox.rs:356-365 | where `Unchanged` is answered for a settled host, reconciling in full would change nothing, unless the two reports are a hash collision |
| `NetboxSink.IdentityIffSettled` | osa-coordinator/src/netbox.rs:209-290 | for a distinct report, reconciling in full changes nothing if and only if the device already shows it |
| `NetboxSink.CachedAfterError` | osa-coordinator/src/netbox.rs:356-387 | after an upsert that failed, the report still in the cache is answered `Unchanged` without an attempt, and the device stays as the failed upsert left it |
| `NetboxSink.StaleAfterError` | osa-coordinator/src/netbox.rs:373-387 | an attempt that aborts after its first write leaves a device that no longer shows the cached report it showed before |
| `Uuid.TextInjective` | osa-coordinator/src/netbox.rs:309-311 | different hosts have different stamps |
| `Uuid.TextLayout` | osa-coordinator/src/netbox.rs:309-311 | the stamp is the 8-4-4-4-12 hexadecimal text of the host id |
| `JobStore.RecordRoundTrip` | osa-agent/src/jobstore.rs:97-128 | a recorded outcome reads back as that outcome, a start marker as started |
| `JobStore.DoneIff` | osa-agent/src/jobstore.rs:103-114 | a file reads as done exactly if it is the byte 1 and a decodable outcome with a terminal status; anything else, an empty file included, reads as started |
| `JobStore.WriteStepPins` | osa-agent/src/jobstore.rs:135-148 | no step of a write, failing or not, makes any record able to disappear; the last step makes its own unable to |
| `JobStore.CrashPins` | osa-agent/src/jobstore.rs:130-134 | a record that cannot disappear survives every crash |
| `JobFiles.RenameIsNotDurable` | osa-agent/src/jobstore.rs:145-147 | after the rename alone a crash can bring back "never seen"; after the directory fsync none can |
| `JobFiles.Store.WriteDurably` | osa-agent/src/jobstore.rs:135-148 | on success the path holds exactly these bytes whatever crashes; on failure a record that could not disappear still cannot |
| `JobFiles.Store.Lookup` | osa-agent/src/jobstore.rs:97-114 | answers none exactly if there is no record, and reads back what was durably written |
| `JobFiles.Store.MarkStarted` | osa-agent/src/jobstore.rs:118-120 | a successful mark is durable |
| `JobFiles.Store.RecordDone` | osa-agent/src/jobstore.rs:123-128 | a successful record is durable and is this outcome |
| `DispatchOnce.AtMostOnce` | osa-agent/src/dispatch.rs:144-296 | in every run, for every hash: a job is started at most once more often than its record was pruned, and after an unpruned start no crash removes its record |
| `DispatchOnce.NeverTwice` | osa-agent/src/dispatch.rs:138-143 | in a run without a prune of its record, no two starts are of one job |
| `DispatchOnce.BeforeActing` | osa-agent/src/dispatch.rs:67-76 | a start is preceded by a record no crash can remove; a delivery is ignored exactly while another one of its job is running |
| `DispatchOnce.StartsArePermitted` | osa-agent/src/dispatch.rs:203-234 | every started process passed the host allowlist for its kind and user, is an exec and has decodable parameters |
| `DispatchReplies.ReplyProtocol` | osa-agent/src/dispatch.rs:151-199 | every finished delivery sent nothing (its job was running) or output followed by exactly one outcome, last; exactly an id that is empty or longer than 256 bytes is refused as invalid; a job that ran was permitted and reports how its process ended, after an attempt to record it; a recorded outcome, a start marker or corrupt record, and an unreadable store each yield exactly that outcome or that one error and no output |
| `DispatchReplies.TurnedAwayIsTold` | osa-agent/src/dispatch.rs:201-247 | in every run a delivery that found no record and ran nothing sent exactly one outcome: the error of the denied verb or user as the allowlist answers, else of an unsupported kind, else of malformed parameters, else of the store; a job that is not permitted is never run |
| `DispatchReplies.AnswersFromStore` | osa-agent/src/dispatch.rs:166-199 | what each content of the record file, and a failed read, makes of a delivery |
| `DispatchReplies.ReplaysRecordedOutcome` | osa-agent/src/dispatch.rs:249-295 | once an outcome is recorded and unpruned, every later lookup finds it across crashes, it is what the delivery that ran the job reported, and every later delivery sends exactly it, or was ignored, or could not read the store |
| `DispatchProgress.UndisturbedJob` | osa-agent/src/dispatch.rs:144-296 | a job the allowlist permits, of kind exec with decodable parameters and no record, none of whose calls fails, is started once, sends its output and outcome, leaves the outcome durably on record and gives its claim back |
| `Framing.ClientTranscriptInjective` | osa-core/src/handshake.rs:72-79 | the signed client transcript determines session id, epoch and ephemeral |
| `Framing.ServerTranscriptInjective` | osa-core/src/handshake.rs:83-90 | the signed server transcript determines session id and both ephemerals |
| `Framing.RolesDiffer` | osa-core/src/handshake.rs:44-90 | no client transcript is a server transcript |
| `Framing.SaltDetermines` | osa-core/src/handshake.rs:95-107 | the session binding, followed by anything, determines session id, both ephemerals, certificate and what follows |
| `Framing.AadInjective` | osa-core/src/wire.rs:67-78 | the authenticated header determines host, session, number and kind |
| `Framing.NonceInjective` | osa-core/src/seal.rs:248-252 | different sequence numbers give different nonces |
| `Framing.StreamInfoInjective` | osa-core/src/seal.rs:238-245 | different stream ids give different derivation inputs |
| `Framing.ClientTranscriptLayout` | osa-core/src/handshake.rs:72-79 | the client transcript, byte for byte |
| `Framing.ServerTranscriptLayout` | osa-core/src/handshake.rs:83-90 | the server transcript, byte for byte |
| `Framing.SessionBindingLayout` | osa-core/src/handshake.rs:95-107 | the key binding, byte for byte |
| `Framing.AadLayout` | osa-core/src/wire.rs:67-78 | the authenticated header, byte for byte |
| `Framing.NonceLayout` | osa-core/src/seal.rs:248-252 | the nonce is four zero bytes and the number |
| `Handshake.SaltSymmetric` | osa-core/src/seal.rs:97-108 | the salt is the same for both roles |
| `Handshake.FinishIff` | osa-core/src/handshake.rs:167-181 | the agent finishes exactly on a valid signature over its own exchange and a contributory secret, with one key per direction label of the bound input; each error exactly in its case |
| `Handshake.RespondIff` | osa-core/src/handshake.rs:195-222 | the coordinator responds exactly to a hello signed by the certified identity and a contributory secret, with those keys |
| `Handshake.InputsAgreeIff` | osa-core/src/seal.rs:88-113 | both ends feed HKDF the same input if and only if session id, both ephemerals and certificate agree |
| `Handshake.KeysAgreeIff` | osa-core/src/handshake.rs:145-222 | both ends hold equal keys, per direction, exactly then, and never a key of the other direction; anything else exhibits an HKDF collision |
| `Handshake.FinishAuthenticates` | osa-core/src/handshake.rs:167-181 | if the agent finishes, the coordinator answered exactly its hello with this ephemeral, and they share keys if they agree on the certificate |
| `Handshake.RespondAuthenticates` | osa-core/src/handshake.rs:195-222 | if the coordinator responds, the agent opened exactly this session at this epoch |
| `Channel.SealOpens` | osa-core/src/wire.rs:83-114 | what is sealed under a key, with any header, number and kind, opens under it as what was sealed, and under no other key |
| `Channel.OpensOnlySealed` | osa-core/src/wire.rs:83-114 | what opens is, header included, what the peer sealed under that number |
| `Channel.AcceptedIff` | osa-agent/src/session.rs:111-129 | an arrival is accepted exactly if it is genuine and newer than every genuine arrival before it |
| `Channel.ForgeriesDoNotMatter` | osa-coordinator/src/session.rs:76-83 | removing everything that does not open changes neither the guard nor what is accepted |
| `Channel.AcceptedIsSubsequence` | osa-agent/src/shell_stream.rs:157-165 | what is accepted is a strictly increasing subsequence of what the peer sealed |
| `Channel.AllAcceptedIff` | osa-coordinator/src/session.rs:70-83 | every genuine frame that arrives is accepted, exactly once, if and only if first arrivals come in sequence order |
| `Channel.DeliversIff` | osa-coordinator/src/session.rs:70-83 | among any forgeries and replays, every sealed frame that arrives is handed on as its plaintext exactly once, if and only if frames first arrive in the order of their numbers; stated over the log of sealed frames |
| `Sessions.Established.OpenDownlink` | osa-agent/src/session.rs:111-129 | hands on exactly what the guard's specification accepts |
| `Sessions.Established.SealUplink` | osa-agent/src/session.rs:134-152 | frame n is sealed under number n modulo 2^64 |
| `Sessions.Session.OpenUplink` | osa-coordinator/src/session.rs:76-83 | hands on exactly what the guard's specification accepts, and is the step the bridge takes |
| `Sessions.Session.SealDownlink` | osa-coordinator/src/session.rs:42-55 | frame n is sealed under number n modulo 2^64, and this is the step the bridge takes |
| `Sessions.UplinkEndToEnd` | osa-coordinator/src/session.rs:68-83 | the coordinator accepts a strictly increasing subsequence of what the agent's session sealed |
| `Sessions.DownlinkEndToEnd` | osa-agent/src/session.rs:119-129 | the same for the other direction |
| `Sessions.UplinkDelivers` | osa-coordinator/src/session.rs:68-83 | the coordinator's session hands on every frame of the agent's that arrives, exactly once, if and only if they first arrive in order |
| `Sessions.DownlinkDelivers` | osa-agent/src/session.rs:119-129 | the same for the other direction |
| `Sessions.EndTakesIff` | osa-coordinator/src/session.rs:76-83 | an end takes exactly what was sealed under its open key, unchanged, with a number above the last it took, and reads what was sealed |
| `Sessions.StreamKeysDiffer` | osa-core/src/seal.rs:150-163 | stream keys are equal only for one session and one id, and never a session's |
| `ShellStreams.ShellRoute.SealDownlink` | osa-coordinator/src/broker.rs:119-132 | frame n is sealed under number n modulo 2^64 |
| `ShellStreams.ShellRoute.OpenUplink` | osa-coordinator/src/broker.rs:137-145 | the guard advances on every accepted frame, and the result is its decoding |
| `ShellStreams.ShellStream.OpenDownlink` | osa-agent/src/shell_stream.rs:157-165 | hands on exactly what the guard's specification accepts |
| `ShellStreams.ShellStream.RouteDownlink` | osa-agent/src/shell_stream.rs:134-152 | the stream is torn down exactly by an accepted closing frame; other data reaches the terminal if its queue has room |
| `ShellStreams.UplinkPump` | osa-agent/src/shell_stream.rs:173-196 | read n is sealed as frame n under number n, and the end of the terminal as a closing frame after the last, until the publisher is gone |
| `ShellStreams.FramesPrefix` | osa-agent/src/shell_stream.rs:181-192 | frame n carries read n, until the first read that is empty or fails |
| `ShellStreams.ClosingIsLast` | osa-agent/src/shell_stream.rs:193-195 | exactly the last frame of a terminal closes |
| `ShellStreams.TerminalToOperator` | osa-agent/src/shell_stream.rs:167-196 | what the operator's route gets is a strictly increasing subsequence of what the terminal printed, whatever the network does, and nothing follows the closing frame |
| `ShellStreams.OperatorToTerminal` | osa-coordinator/src/broker.rs:747-766 | what reaches the terminal is a strictly increasing subsequence of the keystrokes the route sealed |
| `ShellStreams.OutputDelivers` | osa-agent/src/shell_stream.rs:173-196 | the route gets every frame of the output that arrives, the closing one included, exactly once, if and only if they first arrive in order |
| `ShellStreams.KeystrokesDeliver` | osa-agent/src/shell_stream.rs:134-152 | with room in its queue the terminal gets every keystroke that arrives, exactly once, if frames first arrive in order |
| `Nonces.AgentNoncesUnique` | osa-agent/src/control_channel.rs:543-604 | over every run of connections, handshakes, shell opens and seals the agent never repeats a (key, number) pair, if and only if no key is used more than 2^64 times; stream ids are the coordinator's to choose |
| `Nonces.CoordinatorNoncesUnique` | osa-coordinator/src/broker.rs:698-741 | the same for the coordinator, given freshly minted stream ids |
| `Nonces.EndsShareNoKey` | osa-core/src/seal.rs:121-174 | the two ends never seal under one key |
| `Nonces.ReusedIdRepeats` | osa-core/src/seal.rs:150-163 | a reused stream id repeats a nonce on the coordinator; the agent refuses it |
| `Nonces.AgentSeals` | osa-agent/src/session.rs:134-152 | every seal of the agent takes the next number of its key |
| `Nonces.AgentOpensShell` | osa-agent/src/control_channel.rs:543-604 | a shell gets a subkey exactly for an id of 1 to 256 bytes that the session has not used, below 4096 of them |
| `Nonces.CoordinatorSeals` | osa-coordinator/src/session.rs:42-55 | every seal of the coordinator takes the next number of its session's or shell's key |
| `Reorder.ReorderBuffer.Accept` | osa-core/src/stream.rs:90-113 | which answer exactly when, in terms of the head, the window and what is held, and what each does to the history; deliveries exactly from the old head to the new, up to and including `u64::MAX`; that one is delivered again each time it is offered after it was reached |
| `Reorder.ReorderBuffer.Ack` | osa-core/src/stream.rs:72-74 | the number before the head, or none: the last one delivered, except that after `u64::MAX` it stays one behind |
| `Reorder.ReorderBuffer.WindowBound` | osa-core/src/stream.rs:104-111 | at most `capacity` items are held, all in the window after the head |
| `Reorder.ReorderBuffer.Reset` | osa-core/src/stream.rs:83-87 | an empty buffer at the new start |
| `Reorder.AcceptAll` | osa-core/src/stream.rs:90-113 | a whole run of the buffer delivers the history of its arrivals, then each repeated `u64::MAX` |
| `Reorder.DeliveredIsFirst` | osa-core/src/stream.rs:90-113 | the history is, for each number from the start to the head, the item of its first arrival that did not overflow |
| `Reorder.RunDeliversFirst` | osa-core/src/stream.rs:90-113 | what the buffer delivers over a run is exactly that, if `u64::MAX` arrives at most once |
| `Reorder.DeliversAll` | osa-core/src/stream.rs:38-44 | if the first n numbers arrive in any order, within the capacity of the start, the buffer delivers them first, in order, each as it first arrived |
| `Reorder.TwiceAtTheEnd` | osa-core/src/stream.rs:97-103 | a buffer that starts at `u64::MAX` delivers that number twice and acknowledges nothing |
| `Reorder.OrderIndependent` | osa-core/src/stream.rs:38-44 | two overflow-free runs that offer the same items in any order have the same history |
| `Reorder.SameDeliveries` | osa-core/src/stream.rs:38-44 | two such runs of the buffer deliver the same sequence if and only if they repeat `u64::MAX` equally often, so always if it arrives at most once |
| `Audit.HashInput` | osa-core/src/audit.rs:103-119 | the hashed bytes are the specified encoding |
| `Audit.EncodeInjective` | osa-core/src/audit.rs:100-119 | the encoding determines number, record and previous hash |
| `Audit.EncodeLayout` | osa-core/src/audit.rs:103-119 | the hashed bytes, field by field |
| `Audit.Verify` | osa-core/src/audit.rs:148-176 | accepts exactly the chains that end at the expected head; otherwise names the first faulty entry and its fault, truncation, or the wrong head |
| `Audit.ChainBinding` | osa-core/src/audit.rs:148-176 | two chains that verify against one head are equal entry for entry, or contain a hash collision |
| `Audit.RemovalIsSeen` | osa-core/src/audit.rs:139-147 | without an entry from its middle a chain is no chain |
| `Audit.AlterationIsSeen` | osa-core/src/audit.rs:139-147 | with an entry of its middle altered a chain is no chain, or the hash collides |
| `Audit.PrefixChained` | osa-core/src/audit.rs:144-147 | a truncated chain still verifies without an expected head |
| `AuditLog.MemoryAuditLog.Append` | osa-coordinator/src/audit_log.rs:45-54 | the chain stays one, keeps its past and gains exactly this record |
| `AuditLog.NeverForks` | osa-coordinator/src/audit_log.rs:103-159 | for every interleaving of transactions and aborts: the table is one chain, holds exactly the committed records in commit order, and every export is a prefix of every later one |
| `AuditLog.UndisturbedAppend` | osa-coordinator/src/audit_log.rs:103-159 | an append that nothing disturbs adds exactly its record, up to 2^63 rows |
| `AuditLog.CommitsItsRecord` | osa-coordinator/src/audit_log.rs:120-158 | only a commit under the lock adds a row, and it is the record its transaction began with |
| `Epochs.EpochsIncrease` | osa-agent/src/session.rs:183-215 | across crashes at any step, every epoch handed out exceeds all before |
| `Epochs.UndisturbedCall` | osa-agent/src/session.rs:183-215 | a call none of whose system calls fails hands out the stored epoch plus one |
| `Epochs.ReadsOrRefuses` | osa-agent/src/session.rs:183-215 | a call goes on with the stored epoch plus one, or hands out nothing on a file that does not parse or holds the last epoch |
| `Admission.EpochRegistry.Admit` | osa-coordinator/src/epoch.rs:57-66 | admits exactly what exceeds the mark, and moves it |
| `Admission.PgEpochs.Admit` | osa-coordinator/src/epoch.rs:85-110 | the same in one statement, failing closed beyond the signed range; a statement that fails after it was carried out has moved the mark |
| `Epochs.NoResurrection` | osa-coordinator/src/broker.rs:530-547 | across agent crashes and coordinator restarts: admitted epochs strictly increase, an admitted hello is never admitted again, and the agent's newest is admitted if it fits the store and was not yet |
| `Admission.RestartForgets` | osa-coordinator/src/epoch.rs:43-47 | the in-memory registry admits an old epoch again after a restart |
| `Bridge.Bridge.HandleClientHello` | osa-coordinator/src/broker.rs:440-571 | the epoch store is asked exactly for a hello that decodes, has a 32-byte key and a session id of 1 to 128 bytes, whose certificate verified and is the tenant's, whose session id is not the live one, whose host is known not to be revoked and whose handshake succeeded; a session is stored exactly if the store admits it and there is room; the host is returned, with the beacon sealed as frame 0, exactly if the ServerHello was then published |
| `Bridge.TenantStrips` | osa-core/src/topics.rs:47-49 | a tenant is the host id without its hyphens |
| `Bridge.Bridge.StoreSession` | osa-coordinator/src/broker.rs:541-571 | the session is replaced before its ServerHello is published; if that fails, exactly the host's open jobs and its shell are left behind |
| `Bridge.Bridge.ClientHello` | osa-coordinator/src/broker.rs:379-389 | a hello that returns a host leaves it a fresh session and no earlier job or shell, and tells each of its operators that has room; one that is not published leaves all of them and crosses exactly the host's open jobs |
| `Bridge.Bridge.Dispatch` | osa-coordinator/src/broker.rs:657-690 | sealed exactly for a free key, below the cap, to a connected host, under the session's next number, which is spent even if publishing fails; registered exactly if published; each refusal exactly in its case |
| `Bridge.Bridge.HandleResult` | osa-coordinator/src/broker.rs:844-897 | exactly an envelope sealed under the open key of the host's current session, with a number above the guard, whose plaintext decodes to a pending job of that host, reaches that job: with room its body is appended, and an outcome closes the job and forgets the key; a full or closed stream closes it with nothing appended |
| `Bridge.Bridge.OpenUplink` | osa-coordinator/src/broker.rs:861-866 | an envelope opens exactly under the host's current session with a new number, and moves that session's guard and no other |
| `Bridge.Bridge.HandleCtrlAck` | osa-coordinator/src/broker.rs:577-608 | a session is confirmed exactly by the acknowledgement that names it and opens under it |
| `Bridge.Bridge.PurgeHost` | osa-coordinator/src/broker.rs:919-931 | exactly the host's open jobs are closed, each with one error where its stream has room |
| `Bridge.Bridge.ReapStaleJobs` | osa-coordinator/src/broker.rs:935-948 | exactly the expired open jobs are closed, each with one error where its stream has room |
| `Bridge.Bridge.OpenShell` | osa-coordinator/src/broker.rs:698-741 | the open is sealed under the session's next number; published, it binds the host's one shell to the current session, with keys of its own and numbers from 0; otherwise the operator is handed the closing frame |
| `Bridge.Bridge.ShellInput` | osa-coordinator/src/broker.rs:747-766 | keystrokes are sealed under the next number of the shell they name and for no other; if they cannot be published the shell is forgotten |
| `Bridge.Bridge.ShellClose` | osa-coordinator/src/broker.rs:770-782 | the closing frame is sealed for the shell that is named, which is forgotten |
| `Bridge.Bridge.StreamUp` | osa-coordinator/src/broker.rs:787-831 | exactly the frames that open under the shell's own keys with a new number, and decode, are handed on; the closing frame, or an operator who is gone, ends the shell with a closing frame to the agent; a full stream loses that frame only |
| `BridgeTheorems.EachOperator` | osa-coordinator/src/broker.rs:844-948 | after any run: each registration got its items in order, at most one terminal one and that last; unless crossed, all from the one session it was sealed to with rising numbers; while pending it is crossed exactly if that session is no longer its host's; pending never exceeds its cap |
| `BridgeTheorems.OnlyUnconfirmed` | osa-coordinator/src/broker.rs:548-560 | while nothing opens under a session whose ServerHello was lost, an operator gets items of another session only where a ServerHello to that host took effect although publishing it failed |
| `BridgeTheorems.EachShell` | osa-coordinator/src/broker.rs:713-741 | a host's shell has subkeys of the session it was opened under, which is the host's current one exactly if no unpublished hello replaced it |
| `BridgeTheorems.NoSessionAgain` | osa-coordinator/src/broker.rs:519-547 | the sessions stored for a host have strictly increasing epochs, none above the store's mark |
| `BridgeTheorems.CutOff` | osa-coordinator/src/broker.rs:861-866 | what the agent seals in the session of a crossed job no longer opens for its host |
| `BridgeTheorems.CrossSession` | osa-coordinator/src/broker.rs:554-560 | after a ServerHello that took effect although publishing it failed, one job gets number 5 of the old session and then number 0 of the new one |
| `BridgeTheorems.LostResults` | osa-coordinator/src/broker.rs:554-560 | after a ServerHello that was lost, number 6 of the old session no longer reaches the job, which stays pending |
| `Allowlist.LocalAllowlist.Permits` | osa-core/src/allowlist.rs:73-87 | permits exactly a non-empty listed verb with a listed user, and names the reason otherwise |
| `Policy.Authorize` | osa-coordinator/src/policy.rs:180-200 | allows exactly if the target is a host id and some binding grants subject, kind, host and user |
| `Policy.GrantedIff` | osa-coordinator/src/policy.rs:180-200 | a grant is one binding of the subject that lists the kind, the host and the user, or a wildcard for each; the empty kind is never granted |
| `Service.Resolve` | osa-coordinator/src/service.rs:154-188 | the loops over tokens and hosts compute the specified resolution |
| `Service.ResolvedNames` | osa-coordinator/src/service.rs:154-188 | a resolved selector is exactly the hosts it names, each once, at most 1024; it is refused exactly if a token names no host, the bridge does not answer, or there are more, and then the error counts the distinct ones |
| `Service.SplitIs` | osa-coordinator/src/service.rs:165-175 | splitting is undone by joining, and leaves no separator in a part |
| `Service.TokensAre` | osa-coordinator/src/service.rs:165-169 | the tokens are the parts without surrounding white space, except blank ones |
| `Service.DedupInOrder` | osa-coordinator/src/service.rs:178-180 | hosts stay in the order in which they are first named |
| `Service.DedupIsSet` | osa-coordinator/src/service.rs:178-180 | removing duplicates keeps exactly the set |
| `Fanout.NoEffectWithoutAudit` | osa-coordinator/src/service.rs:89-151 | in every interleaving of exec and shell requests, every command to the bridge follows an Allow entry with the subject, kind and user of the operator's own request and a text that parses to its host, which some binding grants exactly; every refusal follows a Deny entry, and none does; the host is one the request names |
| `Fanout.RequestsAreAsked` | osa-coordinator/src/service.rs:327-364 | every request of every run is one an operator made: same subject, kind or "shell", user and targets |
| `Fanout.ExecIsTakenUp` | osa-coordinator/src/service.rs:331-341 | an exec is taken up exactly if it has a kind and its selector resolves to some host |
| `Fanout.ShellIsTakenUp` | osa-coordinator/src/service.rs:124-139 | a shell is taken up exactly if its spelling is a host id |
| `Fanout.WorksThroughNamed` | osa-coordinator/src/service.rs:334-341 | an exec works through exactly the hosts its selector names |
| `Fanout.EachHostOnce` | osa-coordinator/src/service.rs:356-403 | at every moment each host a request is done with has exactly one command or error, each other none |
| `Fanout.FinishedAnswersAll` | osa-coordinator/src/service.rs:356-403 | when a request is over, each of its hosts got exactly one command or exactly one error |
| `Fanout.UndisturbedHost` | osa-coordinator/src/service.rs:356-403 | where nothing fails, a granted host is audited and then commanded, any other audited and then refused |
| `Tokens.JoinTokenRegistry.Mint` | osa-coordinator/src/token.rs:124-146 | sweeps, refuses exactly at the cap, otherwise adds the token to expire after the shorter of the requested and the longest allowed life; the cap always holds |
| `Tokens.JoinTokenRegistry.Redeem` | osa-coordinator/src/token.rs:151-162 | succeeds exactly for a known, unredeemed, unexpired token, and marks it |
| `Tokens.SweepIs` | osa-coordinator/src/token.rs:131-131 | a sweep drops exactly what is redeemed or expired |
| `Tokens.PgJoinTokens.DeleteDead` | osa-coordinator/src/token.rs:215-222 | the delete statement is the sweep |
| `Tokens.PgJoinTokens.InsertRow` | osa-coordinator/src/token.rs:236-244 | the insert adds a fresh token, once |
| `Tokens.PgJoinTokens.Redeem` | osa-coordinator/src/token.rs:247-270 | the update affects a row exactly where the in-memory store would redeem |
| `Tokens.RedeemedAtMostOnce` | osa-coordinator/src/token.rs:148-162 | over every interleaving, with any clocks, a token is redeemed successfully at most once |
| `Tokens.VerdictIsLedger` | osa-coordinator/src/token.rs:124-162 | with one clock a redemption succeeds exactly if the token was minted, not redeemed and not expired, whatever was swept |
| `Tokens.AdaptersAgree` | osa-coordinator/src/token.rs:203-291 | two stores with the same mints and redemptions agree however they swept |
| `Tokens.SubSecond` | osa-coordinator/src/token.rs:203-209 | the store that counts whole seconds never redeems a token the other would not, and their verdicts differ exactly between the seconds it counts and the instant of expiry |
| `Tokens.LastFraction` | osa-coordinator/src/token.rs:203-256 | a token minted at 1.999 s for one second is redeemed at 2.5 s in memory and not in Postgres |
| `Exec.Pump` | osa-agent/src/exec.rs:175-207 | the sink gets a prefix of each stream; at most the cap plus one buffer; truncation is reported exactly if the cap was exceeded, a closed sink only at the send that failed; at the end of both pipes everything was sent |
| `Exec.Stream` | osa-agent/src/exec.rs:209-233 | the flags of the outcome; the child is killed exactly if the pump stopped at the cap, by the clock or for a closed sink, and otherwise everything it wrote was sent |

## Left out

- MQTT, gRPC, Postgres and HTTP transport: delivery, statements and calls are nondeterministic events; wall-clock deadlines are nondeterministic expiry.
- X.509, CSR, PEM, JWT and JWKS handling, and the inside of AES-GCM, HKDF, X25519, ECDSA and SHA-256.
- The parsers of addresses, UUIDs, decimals and protobuf messages, and UTF-8: function parameters, with the round trip or injectivity that is used as a hypothesis.
- PTY, privilege drop, process spawning and signals; TOML loading; heartbeats, back-off and other arithmetic of one line; the coordinator's CLI.
- `NetboxClient`: the device behind the `NetboxDevices` trait is abstract. MAC addresses are not reconciled by the code either.
- Concurrent upserts of different hosts for one serial: an upsert runs alone here, as the per-host lock makes it for one host; two hosts that claim one unclaimed device at the same moment are not modelled.
- NetboxSink.UnchangedIsIdentity: for hosts whose last write was a success over a report without repetitions onto a device without doubled rows, since otherwise the device need not show the report even after a success.
- DispatchReplies.ReplaysRecordedOutcome: assumes that no other delivered job has the same record name and that the file system creates files consistently; DispatchOnce.AtMostOnce assumes neither.
- Tokens.AdaptersAgree: on a clock of whole seconds; `Tokens.SubSecond` states the difference on a finer one.
- Epochs.NoResurrection: for the shared Postgres mark and a state directory that is not wiped.
- AuditLog.MemoryAuditLog.Append: assumes fewer than 2^64 entries, the range of the sequence number.
- AuditLog.UndisturbedAppend: for fewer than 2^63 rows, the range of the column; the row after that would be stored under a negative number.
- BridgeTheorems.CrossSession: a publish that takes effect and still reports an error is an assumption about the broker link, which is not part of this model.
- ShellStreams.TerminalToOperator: for at most 2^64 frames of one stream, after which numbers would repeat.
- Tokens.JoinTokenRegistry.Mint: assumes that the 32 random bytes are not the token of another entry.
- JobFiles.Store.WriteDurably: assumes that a path's temp file is not also one of its records, which creating and renaming keep.
- Panics on overflow in debug builds: 64-bit counters wrap, as they do in a release build.
- Renewal, enrolment and revocation: thin over libraries or one lookup.
