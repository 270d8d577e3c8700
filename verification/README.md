# Verified model of the agent control plane

A Dafny model of the parts of the control plane where state, streaming or concurrency make the code hard to trust by
reading it. Each component is modelled in the form the code has: loops over buffers and rows are methods with loops,
objects that update their fields are classes, and everything those methods promise is tied to specification functions
about which the laws below are proved. The specification functions are pinned down in turn by statements that do not
mention them: over the rows by position, over JSON values path by path, over dates and clock times, over each kind of node
and edge.

- **Ingress evidence stream** (`SseFraming`, `Splitting`, `SseValues`, `Utf8`, `Json`, `JsonCodec`,
  `EvidenceStripping`, `EvidenceStream`, `EvidenceGateway`): bytes arrive in arbitrary chunks, frames are cut at the
  first completed terminator, judged, rewritten or withheld, and the gateway closes the stream with its own evidence
  event. Chunking never matters, nothing forged gets through, and the emitted text reads back as the values that were
  forwarded plus the gateway's own.
- **Captured bodies and admission** (`Redaction`, `BodyCapture`, `Bulkhead`): how much of a body is kept and shown, and
  how many requests are let in.
- **Studio lease protocol** (`StudioLedger`, `StudioLease`, `StudioHeartbeat`): a transition system of any number of
  workers that lease, check, build, finish, heartbeat and crash between transactions. Starts are bounded, moves are
  bounded, and jobs and runs end together.
- **Cron and schedules** (`Calendar`, `Decimal`, `Cron`, `CronParse`, `Schedules`): the minute search over the
  Gregorian calendar, the field parser, and claims by schedulers with different clocks.
- **Evidence DAG** (`EvidenceRows`, `EvidenceIds`, `EvidenceProjection`, `EvidenceKeys`, `EvidenceVersions`,
  `EvidenceExecution`, `EvidenceWork`, `EvidenceIdentity`, `EvidenceIntegrity`, `EvidenceSelection`, `EvidenceKinds`,
  `EvidenceChains`, `EvidenceBuild`): fifteen loops that append nodes, edges and chains, some edges before their ends,
  comparing ids as text, against an order-free statement of what each row calls for, and of which rows stand behind each
  kind of node and edge.
- **Scoped repository tokens** (`GiteaMeta`), **workspace grants** (`Base64Url`, `WritePrefixes`, `Grants`), **chat
  stream** (`ThreadEvents`, `ChatStream`) and **consumer setup** (`ConsumerSetup`).

`dafny verify dfyconfig.toml` checks the whole project.

## Laws that do not hold as one would expect

- Redacting a captured body twice is not always redacting it once. An object with more than 50 entries gets a marker
  under the key "…"; when the object sits on the last level above the depth limit and had a literal "…" key of its own
  among its first 50, that entry is replaced in place by a marker that is itself depth-limited the next time.
  `Redaction.NotAlwaysIdempotent` gives the value, `Redaction.IdempotentExactlyWhen` the exact condition.
- Distinct keys alone do not make the ids of the evidence DAG distinct. A DAG node's id joins run and node id with a
  colon, and an edge's joins its ends with an arrow, and either mark may stand in the ids themselves.
  `EvidenceIdentity.ColonJoinsTwoNodes` and `EvidenceIdentity.ArrowJoinsTwoEdges` give the rows, the contract of
  `EvidenceBuild.BuildEvidenceDag` the exact conditions; no colon in a run id and no arrow in a deployment id is enough.
  (Two findings that join to one id are shown as one node, since findings are looked up before they are added.)
- Distinct keys alone do not make every chain of the evidence DAG resolve either. A deployment with an empty id counts as
  a key like any other, but the review loop links a review only to a truthy id, while the chains compare ids alone.
  `EvidenceChains.UnnamedDeploymentDangles` gives the rows, `EvidenceChains.ChainsResolveExactlyWhen` the exact
  condition. Every edge has both its ends in any case.
- Right after a sweep of expired tokens a collaborator entry may serve no active token, because tokens can expire while
  the sweep runs. `GiteaMeta.SweepLeavesAnIdleEntry` gives the tokens and clock readings,
  `GiteaMeta.AfterSweepExactlyWhen` the exact condition.
- A frame the ingress forwards may still hold a reserved key, in a payload that is not an object.
  `EvidenceStream.ListedEvidencePasses` gives the frame, `EvidenceStream.ReservedKeySurvivesExactlyWhen` the exact
  condition.

## Reading the model

- JSON is an inductive datatype with ordered, unique keys; numbers are whole numbers or doubles, a finite double being
  its odd mantissa and exponent. A `Codec` stands for `json.loads` and `json.dumps`, taken to agree with each other on
  well-formed values and to print every value on one line; `JsonCodec.FaithfulCodecExists` shows that such a codec can be
  had. Signatures are ideal: a signature checks for the message it was made for and no other.
- A locked SELECT with its commit, and a conditional UPDATE, are one atomic step. `complete_job`, `fail_job` and
  `create_job` set the named status, leave the attempt alone and honour the idempotency key.
- Clocks, nonces, timers and other writers are parameters that range over every behaviour: the index of the chunk at which
  the deadline has passed, when a batch window expires, how many heartbeats go out, what other writers commit in between.
- `None` and `False` results stand for the exceptions and refusals of the code, with the kind of refusal where it matters.
- In the evidence DAG a node stands for the row it was made from and has its id as text (`EvidenceIds.NodeText`), an edge
  likewise (`EvidenceIds.EdgeText`); the loops compare these texts. Labels, payloads and provenance are not modelled.

## Model

| member | source | states |
|---|---|---|
| SseFraming.CutIsFirstCompletion | control-plane/control_plane/agent_ingress.py:1196-1205 | The cut the code computes, at the earlier-starting of `\n\n` and `\r\n\r\n`, is the cut right after whichever terminator is first completed by the incoming bytes. |
| SseFraming.CutOfExtension | control-plane/control_plane/agent_ingress.py:1196-1205 | Bytes that arrive later never move a cut already found, and a cut they bring lies beyond what was there: a partial frame is never longer than its whole frame. |
| SseFraming.FrameBuffer.PopFrame | control-plane/control_plane/agent_ingress.py:1196-1205 | Popping takes the bytes up to the first completed terminator off the front of the buffer, or leaves the buffer alone when there is none. |
| SseFraming.ScanSplit | control-plane/control_plane/agent_ingress.py:1641-1669 | Feeding more bytes to a scanner that has read some leaves it where one scan of all the bytes would: same frames, same remainder, same oversized verdict. |
| SseFraming.ChunkingNeverMatters | control-plane/control_plane/agent_ingress.py:1641-1669 | For every list of chunks, frames, unterminated remainder and oversized verdict are those of the concatenated bytes in one chunk. |
| SseFraming.ScanPartitions | control-plane/control_plane/agent_ingress.py:1651-1669 | Frames, remainder and what is left unread add up to exactly the bytes read; reading stops exactly in front of a frame that is over the limit, whole or not yet, and otherwise the remainder holds no whole frame. |
| SseFraming.ScannedFramesAreWhole | control-plane/control_plane/agent_ingress.py:1651-1664 | Every frame handed to the sanitiser is within the size limit and ends with its own terminator, with no terminator completed earlier in it. |
| SseValues.SseDataValues | control-plane/control_plane/agent_ingress.py:1146-1159 | The line loop yields, for each run of lines up to a blank one, its `data:` lines, left-stripped and joined by newlines. |
| SseValues.ValuesAppend | control-plane/control_plane/agent_ingress.py:1146-1159 | Reading a terminated text followed by any other is reading both: values(f + g) = values(f) + values(g). |
| SseValues.DataFrameReadsBack | control-plane/control_plane/agent_ingress.py:1690-1707 | A one-line value written as `data: value` and a blank line reads back as exactly that value. |
| SseValues.EventReadsBack | control-plane/control_plane/agent_ingress.py:1146-1159 | An event of any lines, in front of any text, reads as one value whose lines are the data of its data lines in order, and as none without data lines. |
| SseValues.LStripExactly | control-plane/control_plane/agent_ingress.py:1154-1156 | Of a data line exactly the blanks at its front go. |
| Utf8.DecodeEncode | control-plane/control_plane/agent_ingress.py:1163-1165 | Strict decoding inverts encoding for every text. |
| Utf8.DecodeAppend | control-plane/control_plane/agent_ingress.py:1163-1165 | Decoding two decodable parts one after the other is decoding them together. |
| Utf8.Forms | control-plane/control_plane/agent_ingress.py:1163-1165 | Each code point is encoded in the one of four forms that UTF-8 has for its range. |
| EvidenceStripping.StripUntrustedEvidenceValues | control-plane/control_plane/agent_ingress.py:1100-1116 | The recursive walk with its changed flag computes the stripped value and flag, for every JSON value. |
| EvidenceStripping.StripChanges | control-plane/control_plane/agent_ingress.py:1100-1116 | True is returned exactly when a reserved key occurs at some depth the walk visits; the result has none left; without one the value is untouched. |
| EvidenceStripping.StripIdempotent | control-plane/control_plane/agent_ingress.py:1100-1116 | A second call changes nothing and returns False. |
| EvidenceStripping.EmptiedIsOnlyReserved | control-plane/control_plane/agent_ingress.py:1107-1113 | A `_meta` value is emptied, and so dropped with its key, exactly when it held nothing but reserved keys and such `_meta` objects. |
| EvidenceStripping.StripKeepsTheRest | control-plane/control_plane/agent_ingress.py:1100-1116 | At every path: gone if the path goes through a reserved key or an emptied `_meta`, otherwise the value that was there, itself stripped. |
| EvidenceStripping.StripWellFormed | control-plane/control_plane/agent_ingress.py:1100-1116 | Stripping keeps keys unique at every level. |
| EvidenceStripping.StrippedExactlyWhenCleaned | control-plane/control_plane/agent_ingress.py:1100-1116 | The stripped value is the only one that, at every path that was not removed and at no other, holds what was there: the kept keys in order, lists of the same length, the very scalars. |
| Redaction.RedactBounds | control-plane/control_plane/agent_ingress.py:552-583 | Redacted output nests at most 8 levels with at most 51 children each, and only the marker stands under a sensitive key. |
| Redaction.RenderedSurvives | control-plane/control_plane/agent_ingress.py:552-583 | Whatever lies inside the cuts under no sensitive key is found at the same path afterwards, redacted only in itself. |
| Redaction.RedactedExactly | control-plane/control_plane/agent_ingress.py:552-583 | What stands at every path inside the cuts: the marker eight levels down, secret strings replaced and other scalars as they were, the first fifty children under their keys with credentials replaced, and a marker when there were more. |
| Redaction.IdempotentExactlyWhen | control-plane/control_plane/agent_ingress.py:552-583 | Redacting twice is redacting once exactly when no cut object on the last level above the depth limit holds a literal ellipsis key among its first 50. |
| Redaction.NotAlwaysIdempotent | control-plane/control_plane/agent_ingress.py:552-583 | A value on which redacting twice differs from redacting once: the cut marker on the last level is itself depth-limited the second time. |
| EvidenceStream.SanitizeExactly | control-plane/control_plane/agent_ingress.py:1162-1193 | The whole verdict on a frame, from its data values: what is no text passes; a frame with an end mark is done; otherwise the first value that is forged or holds a reserved key decides: a forged one drops the frame, another one is forwarded alone with exactly the paths of its payload that lead through no reserved key or emptied `_meta`; without such a value the frame passes as it is. |
| EvidenceStream.ForwardedFrame | control-plane/control_plane/agent_ingress.py:1162-1193 | Every value of a forwarded text frame is neither the end mark nor evidence and, where its payload is an object, holds no reserved key at any depth; a terminated frame stays terminated. |
| EvidenceStream.SanitizeTwice | control-plane/control_plane/agent_ingress.py:1162-1193 | A forwarded frame is forwarded unchanged when sanitised again. |
| EvidenceStream.ReservedKeySurvivesExactlyWhen | control-plane/control_plane/agent_ingress.py:1182-1193 | A forwarded text frame still holds a reserved key exactly when nothing in it had to be rewritten and one of its payloads has such a key; that payload is then no object. |
| EvidenceStream.ListedEvidencePasses | control-plane/control_plane/agent_ingress.py:1182-1193 | A concrete frame whose payload is a list with a reserved key inside: it is forwarded as it is. |
| EvidenceGateway.DrainBuffer | control-plane/control_plane/agent_ingress.py:1651-1669 | The inner loop leaves the scanner where scanning the buffered bytes leaves it and emits the forwarded frames in order. |
| EvidenceGateway.ReadUpstream | control-plane/control_plane/agent_ingress.py:1641-1673 | The chunk loop emits what one scan of the bytes read before the deadline calls for, with its done flag, verdicts and remainder, however the bytes were cut. |
| EvidenceGateway.EvidenceSse | control-plane/control_plane/agent_ingress.py:1634-1707 | The whole emission and the observed status are a function of the bytes read and of whether the deadline passed. |
| EvidenceGateway.ForwardedFrames | control-plane/control_plane/agent_ingress.py:1656-1661 | No value of any forwarded frame is gateway evidence or the end mark. |
| EvidenceGateway.FramesReadBack | control-plane/control_plane/agent_ingress.py:1146-1159 | Reading a sequence of text frames sent one after the other gives their values one after the other. |
| EvidenceGateway.EmissionReadsBack | control-plane/control_plane/agent_ingress.py:1634-1707 | A client that parses the emitted stream reads the forwarded values in order, then the error value if any, then one evidence value, then the end mark exactly when it is due. |
| EvidenceGateway.ClientReadsExactly | control-plane/control_plane/agent_ingress.py:1634-1707 | From the upstream frames to the client: per frame its values as they are, or the one that had to be cleaned, or none if an end mark or a forged value decided; then the error with its status and detail if there was one, the evidence, and the end mark exactly when a frame held one or the transport asks for it. |
| BodyCapture.BodyCapture.Add | control-plane/control_plane/agent_ingress.py:229-241 | After every chunk the capture holds the first (or, keeping the tail, the last) `limit` bytes of all bytes observed, with the exact total and truncation flag. |
| BodyCapture.Capture | control-plane/control_plane/agent_ingress.py:217-244 | For every list of chunks: the first (last) min(limit, total) bytes of their concatenation, truncated exactly when the total exceeds the limit. |
| Bulkhead.AgentConcurrencyBulkhead.Acquire | control-plane/control_plane/agent_ingress.py:261-268 | Refused exactly when the global or the agent's own limit is full; the total stays the sum over agents, within both limits. |
| Bulkhead.AgentConcurrencyBulkhead.Release | control-plane/control_plane/agent_ingress.py:270-279 | Gives back exactly one slot of that agent and of the total, so the clamp at zero never bites; an agent without slots changes nothing. |
| Bulkhead.SumPut | control-plane/control_plane/agent_ingress.py:266-279 | Replacing one agent's count changes the sum over agents by exactly the difference. |
| StudioLedger.Session.ReleaseExpiredLeases | control-plane/control_plane/agent_studio_worker.py:198-252 | Of distinct expired rows, in any order: the jobs of live runs are complete, those with an attempt left queued again from now without a lease, the others failed; live runs stay live, a run with a given-up job failed, an active one whose jobs are all queued again is queued; every other job and run stays. |
| StudioLedger.Session.LeaseNextJob | control-plane/control_plane/agent_studio_worker.py:149-169 | One attempt within the maximum is used up; from then on nobody else can lease the job at any time, and its lease is seen as expired exactly from now + lease on; no other job and no run changes. |
| StudioLedger.Session.AdoptStaleLegacyRuns | control-plane/control_plane/agent_studio_worker.py:254-338 | Each stale run with a builder is queued and gets a fresh queued job with two attempts, one without a builder failed; every other job and run stays. |
| StudioLedger.Session.HeartbeatLease | control-plane/control_plane/agent_studio_worker.py:182-194 | A running job is seen as expired exactly from now + lease on, whoever holds it; a job that is not running stays as it was; a heartbeat makes no job leasable and touches no other row. |
| StudioLedger.Session.FailRow | control-plane/control_plane/agent_studio_worker.py:340-360 | The job is out of play with its attempts kept, a canceled one stays canceled, its run is live as before or over, no other row changes, and failing it again changes nothing. |
| StudioLedger.Session.CompleteRow | control-plane/control_plane/agent_studio_worker.py:362-378 | The job is out of play with its attempts kept, a canceled one stays canceled, no run and no other job changes, and completing it again changes nothing. |
| StudioLease.StepKeepsBound | control-plane/control_plane/agent_studio_worker.py:56-252 | Every step of every worker, crash or expiry keeps: starts plus unused leases of a job never exceed its attempts, which never exceed its maximum. |
| StudioLease.RunnerStartsAreBounded | control-plane/control_plane/agent_studio_worker.py:56-252 | Over every run of the system the runner is started at most `max_attempts` times per job, and every queued job can still be leased. |
| StudioLease.StepUsesUp | control-plane/control_plane/agent_studio_worker.py:131-252 | Each lease, requeue or end strictly uses up 2*(max_attempts - attempt) + [running]; nothing increases it and ended jobs stay ended. |
| StudioLease.MovesAreBounded | control-plane/control_plane/agent_studio_worker.py:131-252 | Over every run, the number of status moves of a job plus what remains is at most what it started with. |
| StudioLease.StepStartsExactlyWhen | control-plane/control_plane/agent_studio_worker.py:56-80 | A runner is started exactly by a worker that checks its leased job and finds the run neither live nor failed and the payload good. |
| StudioLease.AloneItEnds | control-plane/control_plane/agent_studio_worker.py:56-102 | Undisturbed, a leased job ends with its build: complete when the build returned with its run live, otherwise failed, and then so is its run unless it had turned live before the build raised; one attempt is counted. |
| StudioLease.JobsAndRunsEndTogether | control-plane/control_plane/agent_studio_worker.py:56-102 | When no worker acts on a lease it has lost, no state reachable from a coupled one has a failed job with an active run or a complete job without a live run. |
| StudioLease.LiveStaysLive | control-plane/control_plane/agent_studio_worker.py:340-360 | A step of any worker, stale ones included, moves some live run out of live exactly when the builder itself takes its own live result back. |
| StudioLease.LiveRunsStayLive | control-plane/control_plane/agent_studio_worker.py:340-360 | Over every run in which no builder takes its result back, live runs stay live, stale workers included. |
| StudioLease.InitiallyBounded | control-plane/control_plane/agent_studio_worker.py:131-169 | The empty system satisfies the bound. |
| StudioLease.InitiallyCoupled | control-plane/control_plane/agent_studio_worker.py:56-102 | The empty system satisfies the coupling. |
| StudioLease.StaleWorkerBreaksCoupling | control-plane/control_plane/agent_studio_worker.py:171-196 | A run from the empty system (a failed build, an expired lease, a second attempt) reaches a coupled state in which the first worker, acting on its lost lease, breaks the coupling: the lease names no owner. |
| StudioHeartbeat.ThreeIntervalsFit | control-plane/control_plane/agent_studio_worker.py:156-173 | Three heartbeat intervals fit in the lease, for every configured value. |
| StudioHeartbeat.LeaseAndInterval | control-plane/control_plane/agent_studio_worker.py:156-173 | The lease is the configured one but at least 30 seconds, the wait a third of it but at least 10 and at most 30. |
| StudioHeartbeat.RunningWorkerNeverExpires | control-plane/control_plane/agent_studio_worker.py:171-207 | While lease writes each finish within one interval, nobody ever sees a running worker's lease as expired. |
| CronParse.ParseField | control-plane/control_plane/cron.py:90-114 | The segment loop yields the union of all segments with Sunday folded to 0, or an error when any segment is malformed. |
| CronParse.ParseCron | control-plane/control_plane/cron.py:44-54 | Every parsed expression has non-empty fields, each within its own range, weekdays within 0..6. |
| CronParse.SegmentReadsBack | control-plane/control_plane/cron.py:117-146 | A written star, number or span with an optional step reads back as exactly the values it stands for, up to Sunday as 7. |
| CronParse.FieldReadsBack | control-plane/control_plane/cron.py:90-156 | A field written as any comma-separated list of such segments parses to exactly the union of what they stand for. |
| CronParse.CronReadsBack | control-plane/control_plane/cron.py:44-54 | A whole expression of five written fields parses to what minute, hour, day, month and weekday stand for, in this order and each in its own range. |
| Cron.NextCronTime | control-plane/control_plane/cron.py:57-75 | The minute loop returns the first instant after `after` whose local date and time have all five fields admitted, and raises exactly when the window of two years has none. |
| Cron.MatchesExactly | control-plane/control_plane/cron.py:78-87 | A minute matches exactly when its minute, hour, day, month and weekday on the calendar and the clock are in the five sets. |
| Cron.FireAfterIsNextTick | control-plane/control_plane/cron.py:57-75 | The result is an admitted date and time after `after`, and none lies between. |
| Cron.AnyDayFires | control-plane/control_plane/cron.py:78-87 | With days of month unrestricted the search never fails, whatever months, weekdays and times are allowed. |
| Cron.AnyWeekdayFiresExactlyWhen | control-plane/control_plane/cron.py:78-87 | With weekdays unrestricted the search succeeds from every start exactly when some allowed day occurs in some allowed month of every year, in particular when a day is at most 28. |
| Calendar.DateOf | control-plane/control_plane/cron.py:68-72 | Every day number is a valid Gregorian date with that ordinal. |
| Calendar.OrdinalInjective | control-plane/control_plane/cron.py:68-72 | Two dates with the same day number are the same date. |
| Calendar.NextDay | control-plane/control_plane/cron.py:68-72 | The day after a date has the next day number, across ends of months and years, from 1 January of year 1 on. |
| Calendar.MonthLengths | control-plane/control_plane/cron.py:68-72 | The lengths of the twelve months, in leap years and others. |
| Schedules.Database.ClaimDueSchedules | control-plane/control_plane/agent_schedules.py:98-136 | One scheduler's pass claims every selected row at its own first tick after the claimer's clock, recording the claim and changing nothing else, or none of them when one expression has no next time; a successful pass is a run of one try after the other. |
| Schedules.StepKeepsChains | control-plane/control_plane/agent_schedules.py:118-134 | Every conditional update, by any scheduler with any clock, moves `next_run_at` past the claimer's `due_at`, and none moves it back. |
| Schedules.StepClaimsExactlyWhen | control-plane/control_plane/agent_schedules.py:118-134 | A row is claimed, at its first tick after the claimer's clock, exactly when a try finds it enabled and due and its expression has a next time; otherwise only a switch changes it, and only its flag. |
| Schedules.RunsKeepChains | control-plane/control_plane/agent_schedules.py:98-136 | Over every interleaving, claims of a schedule follow one another without gap or overlap. |
| Schedules.CoveredAtMostOnce | control-plane/control_plane/agent_schedules.py:98-136 | No moment is covered by two claims. |
| Schedules.EveryTickClaimedOnce | control-plane/control_plane/agent_schedules.py:98-136 | Every cron tick from the first due time up to the current `next_run_at` was covered by exactly one claim, missed ticks sharing one. |
| GiteaMeta.MintKeepsConsistent | control-plane/control_plane/gitea_meta.py:293-312 | Minting keeps a collaborator entry for every active token. |
| GiteaMeta.RevokeKeepsConsistent | control-plane/control_plane/gitea_meta.py:345-362 | Revoking removes the entry only when no other active token needs it, so every active token keeps its own. |
| GiteaMeta.ConsistentLater | control-plane/control_plane/gitea_meta.py:259-265 | Tokens expiring with time never break the invariant. |
| GiteaMeta.Tokens.MintScopedToken | control-plane/control_plane/gitea_meta.py:271-326 | Adds the collaborator, the remote token and the audit row, and keeps the invariant. |
| GiteaMeta.Tokens.RevokeToken | control-plane/control_plane/gitea_meta.py:329-369 | False only for an unknown name; a second revocation changes nothing; the entry stays exactly when another token of the same access is neither revoked nor expired. |
| GiteaMeta.Tokens.SweepExpiredTokens | control-plane/control_plane/gitea_meta.py:383-403 | Revokes exactly the tokens expired when it started, with the clock running on while it works; afterwards the entries lie between the accesses active at its end and at its start, and are exactly those active if and only if none lingers. |
| GiteaMeta.AfterSweepExactlyWhen | control-plane/control_plane/gitea_meta.py:383-403 | For every order of revocations and every clock: the entries left are exactly the active accesses if and only if no access lost its last active token during the sweep while another was still active at each revocation of one of its own, if there was any. |
| GiteaMeta.SweepLeavesAnIdleEntry | control-plane/control_plane/gitea_meta.py:383-403 | Tokens that expire at 5 and 8, a sweep from 6 that revokes at 9: the second entry stays although no token is active. |
| Base64Url.B64RoundTrip | control-plane/control_plane/grants.py:79-80 | Unpadded base64url decodes back for every byte string, and holds neither a dot nor padding. |
| Base64Url.ScanB64 | control-plane/control_plane/grants.py:169-171 | The padding put back is what the decoder needs: scanning the padded text gives exactly the encoded bytes. |
| Base64Url.Alphabet | control-plane/control_plane/grants.py:79-80 | The alphabet of section 5 of RFC 4648, character by character. |
| Base64Url.SameBits | control-plane/control_plane/grants.py:79-80 | Three bytes are four sextets, most significant bits first. |
| WritePrefixes.NormalizeWritePrefixes | control-plane/control_plane/grants.py:83-99 | The loop yields the cleaned candidates in order of first appearance, the outputs prefix first, skipping empty ones. |
| WritePrefixes.PrefixesCover | control-plane/control_plane/grants.py:83-99 | The result is duplicate-free, every prefix in normal form, and holds exactly the forms some candidate cleans to. |
| WritePrefixes.PrefixesInOrder | control-plane/control_plane/grants.py:83-99 | The prefixes stand in the order in which their values first appear, the outputs prefix before the others. |
| WritePrefixes.StripExactly | control-plane/control_plane/grants.py:93 | Of a candidate exactly the slashes at both ends go. |
| WritePrefixes.NormalizedTwice | control-plane/control_plane/grants.py:83-99 | Normalising the result again changes nothing, not even its order. |
| WritePrefixes.EmptyStaysEmpty | control-plane/control_plane/grants.py:196-197 | What the outputs prefix alone yields is part of the full result, so an empty list is refilled with nothing. |
| Grants.TokenParts | control-plane/control_plane/grants.py:162-180 | A token splits at its last dot into exactly the two parts it was built from, both decoding back. |
| Grants.MintThenVerify | control-plane/control_plane/grants.py:119-198 | A minted token verifies to the very payload it was minted with exactly up to its expiry second, and is refused as expired afterwards; an expiry of 0 never expires. |
| Grants.MintedCarries | control-plane/control_plane/grants.py:119-141 | The payload of a minted token holds what was asked for under each of its seventeen keys, and nothing else. |
| Grants.AcceptedExactlyWhen | control-plane/control_plane/grants.py:174-198 | A token is accepted exactly when both sides of its last dot decode, the signature checks, the body is a JSON object, and its expiry is missing, falsy or not past; and then as its own payload, write prefixes refilled only from the outputs prefix. |
| Grants.AnotherBodyIsForged | control-plane/control_plane/grants.py:184-188 | Another body in front of an existing signature is refused as forged. |
| ThreadEvents.Thread.Append | control-plane/control_plane/thread_events.py:19-67 | An append takes the next free number at the moment it commits, a stale hint or another writer costing a try; otherwise nothing is added and the error reaches the caller. |
| ThreadEvents.AppendedExactly | control-plane/control_plane/thread_events.py:36-67 | The row is stored by the first try whose number is still free, a hint counting on the first only, right behind what others committed until then; it is lost when that try breaks or all three lost their number. |
| ThreadEvents.TypedExactly | control-plane/control_plane/thread_events.py:12-16 | Every stored event has a type that is not empty, its own or the default, and is otherwise unchanged. |
| ThreadEvents.OrderIsKept | control-plane/control_plane/thread_events.py:36-67 | Read in number order, a writer's part of the transcript grows by its successful attempts in their order, however other writers interleave. |
| ThreadEvents.HintIsOwnNumber | control-plane/control_plane/chat_stream.py:302-317 | The number remembered after an append is that of the writer's own new last row; after a failure none is. |
| ThreadEvents.CalmLosesNothing | control-plane/control_plane/thread_events.py:36-67 | Without failures, and with no one else committing before the third try, every attempt is stored, even with a stale hint. |
| ChatStream.ChatRunStream.PublishMany | control-plane/control_plane/chat_stream.py:102-117 | Every event is queued for the client with its own number, and the batch for the persister when asked to and not empty. |
| ChatStream.WireEventExactly | control-plane/control_plane/chat_stream.py:173-179 | Key by key: what an event had stays; thread, job and number are added only where missing, the job only if there is one. |
| ChatStream.ChatRunStream.CloseStream | control-plane/control_plane/chat_stream.py:119-127 | The first close puts one end mark on both queues; later ones do nothing. |
| ChatStream.ChatRunStream.PersistBatch | control-plane/control_plane/chat_stream.py:302-317 | The events of a batch are attempted one by one, the remembered number kept after a success and dropped after a failure. |
| ChatStream.ChatRunStream.PersistEvents | control-plane/control_plane/chat_stream.py:275-300 | Whenever the batch window closes, exactly the batches before the end mark are attempted, each event once and in order; the window only decides the grouping, and a group grows only below the limit. |
| ChatStream.QueueCarriesWhatIsDue | control-plane/control_plane/chat_stream.py:102-127 | For every history of publishes and closes the persister's queue carries exactly the events to keep that were published before the first close. |
| ChatStream.WhatIsDueIsStored | control-plane/control_plane/chat_stream.py:275-317 | In a calm world the transcript grows by exactly those events, in publish order. |
| ChatStream.ChatRunStream.IterSse | control-plane/control_plane/chat_stream.py:131-153 | However many heartbeats go out in between, the client hears the told payloads in order and then the end mark, and no heartbeat. |
| ChatStream.EveryWireEventIsTold | control-plane/control_plane/chat_stream.py:141-152 | Apart from the stand-in chunks, the client hears every event queued before the end mark, once and in order. |
| ChatStream.TellExactly | control-plane/control_plane/chat_stream.py:131-153 | The iteration crashes exactly at a final without content that no delta precedes; otherwise the client is told each event in order, a stand-in chunk in front of exactly those finals that no delta precedes. |
| ChatStream.ChunkCarries | control-plane/control_plane/chat_stream.py:148-150 | A stand-in chunk holds the content at choices, first entry, delta, and nothing else. |
| ChatStream.PublishedIsTold | control-plane/control_plane/chat_stream.py:131-179 | Events published and then closed reach a client that hears the end, each as its wire event, in order. |
| ConsumerSetup.ResolveConsumerSetup | control-plane/control_plane/consumer_setup.py:100-162 | From the rows and memberships alone, by position: the first active membership that fits, the last own row of a name or else the last of the organisation, and from them missing names in order, config, decrypted secrets, entries and management right; or the error of an unknown organisation or an undecryptable secret. |
| ConsumerSetup.ResolveConsumerSetupInvocation | control-plane/control_plane/consumer_setup.py:201-279 | The fast path agrees with the full resolver on errors, completeness, missing fields, config and secrets, and on the organisation exactly unless nothing is declared, no argument is given and the user has one. |
| ConsumerSetup.EffectiveIsLast | control-plane/control_plane/consumer_setup.py:118-132 | The user's row shadows the organisation's, and of several rows for a name the last one counts. |
| ConsumerSetup.CompleteExactlyWhen | control-plane/control_plane/consumer_setup.py:133-136 | A setup is complete exactly when every required field has a row. |
| EvidenceProjection.EvidenceGraph.AppendEdge | control-plane/control_plane/evidence_dag.py:2388-2390 | An edge is appended exactly when no edge has its id text, and is called for from then on under that id. |
| EvidenceProjection.EvidenceGraph.AddUnseenNode | control-plane/control_plane/evidence_dag.py:2972-2993 | A node behind the seen check is appended exactly when no node of the graph has its id text, although only the marked ids are looked at. |
| EvidenceVersions.AddDeployments | control-plane/control_plane/evidence_dag.py:416-536 | The deployment loop adds exactly what the rows call for, each row's items once, although it never looks before it appends. |
| EvidenceVersions.AddReviews | control-plane/control_plane/evidence_dag.py:539-590 | The review loop adds each review and its edge from the deployment it names. |
| EvidenceVersions.AddProofs | control-plane/control_plane/evidence_dag.py:592-669 | The proof loop adds each proof, its version and their edges. |
| EvidenceExecution.AddGrants | control-plane/control_plane/evidence_dag.py:1387-1455 | The grant loop adds each grant and its edges, a parent possibly before the parent's own node. |
| EvidenceExecution.AddSubagentRuns | control-plane/control_plane/evidence_dag.py:1457-1561 | The handoff loop adds each run, its events and the edges from its grant. |
| EvidenceExecution.AddFindings | control-plane/control_plane/evidence_dag.py:1583-1643 | The finding loop shows each finding under its id text once and remembers, per hash, the one of the last review that has it. |
| EvidenceExecution.AddReceipts | control-plane/control_plane/evidence_dag.py:1645-1693 | The receipt loop adds each receipt and its edge. |
| EvidenceExecution.AddSessions | control-plane/control_plane/evidence_dag.py:1698-1763 | The session loop adds each session and its edges. |
| EvidenceWork.AddDagNodes | control-plane/control_plane/evidence_dag.py:1808-1895 | The DAG node loop adds each row's node, even under an id that is there already, with the edges from agent, run and grant. |
| EvidenceWork.AddDependencies | control-plane/control_plane/evidence_dag.py:1897-1918 | Dependencies become edges exactly when the node they name was loaded in the same run. |
| EvidenceWork.AddTrials | control-plane/control_plane/evidence_dag.py:1920-2035 | The trial loop adds each trial, and each room once. |
| EvidenceWork.ProjectMutationRefs | control-plane/control_plane/evidence_dag.py:2393-2537 | One mutation's edges and version are those its references call for, and its chain names the finding's last review, the deployment it led to, and the last review and proof of the commit. |
| EvidenceWork.AddJobs | control-plane/control_plane/evidence_dag.py:2037-2230 | The job loop adds jobs, parents, events and mutations, and the remediation chains in order. |
| EvidenceWork.AddUsages | control-plane/control_plane/evidence_dag.py:2232-2340 | Each usage row gets the edges of its keys, and the inferred one exactly when it has none. |
| EvidenceKeys.DeploymentsApart | control-plane/control_plane/evidence_dag.py:416-536 | Distinct deployment and event keys keep the items that two deployment rows append blindly apart. |
| EvidenceKeys.JobsApart | control-plane/control_plane/evidence_dag.py:2037-2230 | Distinct job and event keys keep the items that two jobs append blindly apart. |
| EvidenceIntegrity.EveryEdgeHasItsEnds | control-plane/control_plane/evidence_dag.py:416-2340 | Every edge the rows call for has both its ends among the nodes the rows call for, whatever the rows. |
| EvidenceChains.ReviewLinkExistsExactlyWhen | control-plane/control_plane/evidence_dag.py:568-590 | The review edge a chain names has its id in the graph exactly when the deployment's id is not empty, or another review's edge is written alike. |
| EvidenceChains.AuthorityResolves | control-plane/control_plane/evidence_dag.py:2354-2385 | An authority chain names only ids of nodes and edges that are projected. |
| EvidenceChains.ChainsResolveExactlyWhen | control-plane/control_plane/evidence_dag.py:706-745 | Every node id and edge id every chain names is projected, exactly when no deployment with an empty id is reviewed in a chain whose missing edge is not written like another one. |
| EvidenceChains.NamedDeploymentsResolve | control-plane/control_plane/evidence_dag.py:706-745 | When every deployment has an id, every chain can be followed. |
| EvidenceChains.UnnamedDeploymentDangles | control-plane/control_plane/evidence_dag.py:568-590 | One deployment with an empty id and one review of it: the trust chain names an edge id that is not in the graph. |
| EvidenceBuild.AddAuthorityChains | control-plane/control_plane/evidence_dag.py:2354-2385 | One chain for each grant id in the order the ids first appear, over its handoff run, its first DAG node and its last proof. |
| EvidenceBuild.AddTrust | control-plane/control_plane/evidence_dag.py:706-745 | One chain from the latest deployment exactly when it has a review or a proof of its commit, naming the first of each and the edge to the review. |
| EvidenceSelection.TrustByPosition | control-plane/control_plane/evidence_dag.py:706-745 | The trust chain names the proof at the least position whose commit is the latest deployment's and not empty, and the review at the least position that names that deployment; it exists exactly when one of them does. |
| EvidenceSelection.AuthorityByPosition | control-plane/control_plane/evidence_dag.py:2354-2385 | An authority chain names the first DAG node and the last proof of its grant, by position, and exists exactly when the grant authorised anything. |
| EvidenceSelection.RemediationByPosition | control-plane/control_plane/evidence_dag.py:2501-2537 | A remediation chain exists exactly when a mutation targets a known finding, names a commit and led to a deployment; every row it names is the last that fits, by position. |
| EvidenceKinds.ProjectedExactlyWhen | control-plane/control_plane/evidence_dag.py:416-2340 | Whatever the rows, a node or edge is projected exactly when its kind's own row condition holds: which rows stand behind each of nineteen kinds of nodes and thirty-four kinds of edges. |
| EvidenceBuild.BuildEvidenceDag | control-plane/control_plane/evidence_dag.py:345-784 | The graph shows exactly the ids the rows call for; both ends of every edge are node ids; a node id stands twice exactly when two DAG nodes join to one text, an edge id exactly when two blind edges do; all chains can be followed exactly when no unnamed deployment is reviewed; other views see the agent alone. |
| EvidenceIds.NodeTextDetermines | control-plane/control_plane/evidence_dag.py:204-277 | Two node ids written alike are the same id, but for DAG nodes and findings, which join two fields with a colon and are then only known to join alike. |
| EvidenceIds.EdgeTextDetermines | control-plane/control_plane/evidence_dag.py:280-281 | Two edge ids written alike are of one kind, with their ends written alike around the arrow. |
| EvidenceIdentity.SharedNodeIdExactlyWhen | control-plane/control_plane/evidence_dag.py:256-257 | With distinct keys, two different projected nodes share an id text exactly when two DAG node rows join run and node id to one text. |
| EvidenceIdentity.ColonJoinsTwoNodes | control-plane/control_plane/models.py:2086-2088 | The unique pairs (a, b:c) and (a:b, c) both become dag_node:a:b:c. |
| EvidenceIdentity.PlainRunsKeepNodesApart | control-plane/control_plane/evidence_dag.py:256-257 | No two projected nodes share an id when no run id holds a colon. |
| EvidenceIdentity.SharedEdgeIdExactlyWhen | control-plane/control_plane/evidence_dag.py:280-281 | With distinct keys, an edge appended blindly shares its id text with another projected edge exactly when two deployments of a version, or two linked reviews, join to one text around an arrow. |
| EvidenceIdentity.ArrowJoinsTwoEdges | control-plane/control_plane/evidence_dag.py:476-495 | A version of the deployment a and one of the deployment a->version:b whose edges have one id. |
| EvidenceIdentity.PlainDeploymentsKeepEdgesApart | control-plane/control_plane/evidence_dag.py:280-281 | No blind edge shares its id when no deployment id holds an arrow. |
| EvidenceBuild.NodeIdsDistinctExactlyWhen | control-plane/control_plane/evidence_dag.py:256-257 | In the list of nodes as it was built, no id stands twice exactly when no two DAG node rows join to one text. |
| EvidenceBuild.EdgeIdsDistinctExactlyWhen | control-plane/control_plane/evidence_dag.py:2388-2390 | In the list of edges as it was built, no id stands twice exactly when no two blind edges join to one text. |

## Left out

- EvidenceGateway.EmissionReadsBack: does not cover a stream that ends in an unterminated tail, because the code forwards that tail without a terminator right in front of the evidence frame; and covers upstream bytes that are UTF-8 text, while frames that do not decode are forwarded as they are.
- EvidenceGateway.EvidenceSse: does not model cancellation and upstream exceptions, which end the generator early, and takes the evidence payload as given.
- EvidenceStream.Sanitize: text has no lone surrogates; in the code a frame with a reserved key and an escaped lone surrogate cannot be encoded when it is written anew (`UnicodeEncodeError`), which the model does not show.
- EvidenceStripping.StripUntrustedEvidenceValues: returns the edited value instead of editing dicts and lists in place, so aliasing between parts of one value is not captured.
- Redaction.RedactBounds: takes the sensitive-key and secret-text patterns as predicates that are false on the redactor's own markers; the patterns and the text scrubber are not modelled.
- StudioLease.JobsAndRunsEndTogether: assumes workers that do nothing after losing their lease, because the lease names no owner; `StudioLease.StaleWorkerBreaksCoupling` shows, from the empty system on, that the assumption is needed. The bound on starts and `StudioLease.LiveStaysLive` need no such assumption.
- StudioLease.RunnerStartsAreBounded: takes the rows locked by a query as any set of rows the query's condition admits, so priorities and row order play no part.
- StudioHeartbeat.RunningWorkerNeverExpires: assumes every lease write is done within one interval and one clock for all workers.
- Cron.NextCronTime: covers fixed-offset zones only; daylight-saving changes and zone data are not modelled, nor is the end of the calendar at year 9999.
- CronParse.ParseField: covers ASCII digits; the other Unicode digits that `int` accepts are not modelled (blanks cannot occur, since `parse_cron` splits the expression at them), nor are the `@hourly` style macros.
- Schedules.RunsKeepChains: leaves out edits of a schedule by its owner, which set `next_run_at` anew.
- GiteaMeta.Tokens.SweepExpiredTokens: mint, revoke and sweep run one at a time and remote calls succeed; failed mints, and a mint interleaved with a revocation, are not modelled.
- GiteaMeta.Tokens.RevokeToken: models the default `allow_collaborator_cleanup=True`, the only value used.
- Grants.MintThenVerify: takes the source grants as already normalised (`normalize_source_grants` only filters and copies) and prefixes as text; key loading is left out.
- Grants.Verify: `json.loads` on bytes is modelled for UTF-8 only.
- ChatStream.ChatRunStream.IterSse: covers the in-process queue only; Redis mode and falling back from it restart sequence numbers and are left out.
- ChatStream.ChatRunStream.PersistEvents: takes each wait for the next batch as taking an item or timing out, never losing one.
- ConsumerSetup.ResolveConsumerSetup: takes the declaration as already normalised, and both of its reads in one fast-path call as seeing the same rows.
- EvidenceBuild.BuildEvidenceDag: takes the rows as loaded, child rows grouped under their parents; the queries, warnings, redaction of labels and the current-version summary are left out.
- EvidenceWork.ProjectMutationRefs: takes the references as found; the search through payloads for them is left out.
- HTTP, Redis, SQLAlchemy, Kubernetes, Gitea and Argo calls, FastAPI plumbing, logging, signing and hashing: only the state each call reads or writes is kept.
- Route authorisation tables, deployment status messages, scoring, database provisioning, e-mail, front end and agent wrappers: branch tables or input and output that would add only easy members.
